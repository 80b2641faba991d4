# Weather ingestion core, modelled in Dafny

This project models the back end of the redhat-weather-service ingestion pipeline: the Quarkus
services that poll external weather feeds, normalise each record into a canonical row and append
it to a table, the scheduler that drives them, the retention sweep that ages rows out, the
repository queries over the four tables, the airport CSV reference loader, location updates and
the JPA lifecycle hooks of the entities.

The model follows the Java code closely:

- Each table (`locations`, `weather_forecasts`, `airport_weather`, `hurricanes`) is a sequence of
  row values held by a repository object; a row is what the database stores, so the NOT NULL columns
  are plain values and the nullable ones are `Option`s. Inserting a row checks the NOT NULL and
  varchar-length constraints the schema declares.
- Each entity is a class with the Java entity's mutable fields; a service builds an entity field
  by field and persists it, and `@PrePersist`/`@PreUpdate` are methods that update the object in
  place. A `*Fields` value is the snapshot of an entity's fields; a `*Row` is the stored row.
- `BigDecimal` is an unscaled integer with a scale; `LocalDateTime` is whole seconds since
  1970-01-01T00:00 on the local time line, with the calendar computed from the epoch day.
- The remote feeds (NOAA, OpenWeatherMap, aviationweather.gov, the National Hurricane Center) are
  an `Upstream` value: one function per client call that either returns an already-parsed payload
  or throws, the ISO-8601 parser, and an oracle telling which service transactions fail to commit.
  The current time is a parameter.
- A service method reports the HTTP requests it issued, so "nothing was fetched" can be stated.
  Each `fetchAndStore*` method catches every exception of its own, and a row the database rejects
  rolls the whole invocation back; only a failed commit reaches the scheduler.
- Repository queries are functions over the table (filter, then a stable sort on the ORDER BY
  key); `deactivate*` and `delete*` are methods that update the table in place and count rows.
- Methods are proved against functions of the old state (`Outcome`, `Deactivated`, `Filter`,
  `SortBy`, `Run`, `TallyOf`, ...), and the promised properties are lemmas about those functions.

Files: `wrappers.dfy` (Option), `decimals.dfy`, `clock.dfy`, `text.dfy`, `ordering.dfy`,
`retention.dfy`, `persistence.dfy`, `feeds.dfy` (payload shapes and the upstream),
one `*_entity.dfy`, `*_repository.dfy` and `*_service.dfy` per table, `airport_csv_loader.dfy`
and `scheduler.dfy`.

## Model

| member | source | states |
|---|---|---|
| LocationEntities.Created | redhat-weather-service/src/main/java/com/redhat/weather/domain/entity/LocationEntity.java:54-58 | onCreate sets createdAt and updatedAt to now and leaves every other field as it was |
| LocationEntities.Updated | redhat-weather-service/src/main/java/com/redhat/weather/domain/entity/LocationEntity.java:60-63 | onUpdate sets updatedAt to now and leaves every other field, createdAt included, as it was |
| LocationEntities.ToRow | redhat-weather-service/src/main/java/com/redhat/weather/domain/entity/LocationEntity.java:19-52 | an INSERT succeeds exactly when name, coordinates, type and both timestamps are present, the name fits the 255-character default of a String column without a length and the 50/10/100/100 limits of type, code, state and country hold; the row carries the generated id |
| LocationEntities.ToRowLoadsBack | redhat-weather-service/src/main/java/com/redhat/weather/domain/entity/LocationEntity.java:19-52 | an accepted entity loads back from its row unchanged, now carrying the generated id |
| LocationEntities.NotDirtyAgainstItself | redhat-weather-service/src/main/java/com/redhat/weather/domain/entity/LocationEntity.java:60-63 | an entity equal to the state it was loaded with is not dirty, so a flush does not run @PreUpdate |
| LocationEntities.Edit | redhat-weather-service/src/main/java/com/redhat/weather/service/LocationService.java:52-59 | updateLocation copies name, latitude, longitude, type, airport code, state, country and metadata; id, createdAt and updatedAt stay |
| LocationEntities.EditIdempotent | redhat-weather-service/src/main/java/com/redhat/weather/service/LocationService.java:52-59 | copying the same fields twice is copying them once |
| LocationEntities.Flushed | redhat-weather-service/src/main/java/com/redhat/weather/domain/entity/LocationEntity.java:60-63 | @PreUpdate runs at flush exactly when the entity differs from its loaded state |
| LocationEntities.UpdatedRow | redhat-weather-service/src/main/java/com/redhat/weather/domain/entity/LocationEntity.java:48-52 | an UPDATE keeps the row id and the stored createdAt (not updatable) and is accepted exactly when the columns are valid |
| LocationEntities.LocationEntity.constructor | redhat-weather-service/src/main/java/com/redhat/weather/domain/entity/LocationEntity.java:17-52 | a new entity has every field null |
| LocationEntities.LocationEntity.OnCreate | redhat-weather-service/src/main/java/com/redhat/weather/domain/entity/LocationEntity.java:54-58 | the hook updates the object in place to Created of its old state |
| LocationEntities.LocationEntity.OnUpdate | redhat-weather-service/src/main/java/com/redhat/weather/domain/entity/LocationEntity.java:60-63 | the hook updates the object in place to Updated of its old state |
| LocationRepositories.NameMatchesIsSubstring | redhat-weather-service/src/main/java/com/redhat/weather/domain/repository/LocationRepository.java:57-59 | for a search text without '%' or '_' the LIKE pattern matches exactly the names that contain the text, ignoring ASCII case |
| LocationRepositories.WithoutUnique | redhat-weather-service/src/main/java/com/redhat/weather/service/LocationService.java:65-68 | deleting the row of an id leaves the remaining ids unique and none equal to the deleted one |
| LocationRepositories.LocationRepository.Persist | redhat-weather-service/src/main/java/com/redhat/weather/service/LocationService.java:44 | a detached entity (id set) is refused with nothing changed; otherwise @PrePersist runs, the next identity value is drawn whether or not the database accepts the row, and the row is appended under it exactly when the database accepts it |
| LocationRepositories.LocationRepository.Flush | redhat-weather-service/src/main/java/com/redhat/weather/service/LocationService.java:48-63 | the managed entity is flushed: @PreUpdate when dirty, then the row at its index replaced when the UPDATE is accepted, else the table unchanged |
| LocationRepositories.LocationRepository.DeleteById | redhat-weather-service/src/main/java/com/redhat/weather/service/LocationService.java:65-68 | answers whether a row with the id existed; that row, and only it, is removed |
| LocationRepositories.LocationRepository.GetAllLocations | redhat-weather-service/src/main/java/com/redhat/weather/domain/repository/LocationRepository.java:14-16 | every row, in table order |
| LocationRepositories.LocationRepository.FindByIdOptional | redhat-weather-service/src/main/java/com/redhat/weather/domain/repository/LocationRepository.java:18-20 | the row with the id, or none exactly when no row has it |
| LocationRepositories.LocationRepository.FindByType | redhat-weather-service/src/main/java/com/redhat/weather/domain/repository/LocationRepository.java:22-24 | exactly the rows of the given type; each matching row appears as often as the table holds it |
| LocationRepositories.LocationRepository.FindAirportLocations | redhat-weather-service/src/main/java/com/redhat/weather/domain/repository/LocationRepository.java:26-28 | exactly the rows of type "airport" with a non-null airport code; each matching row appears as often as the table holds it |
| LocationRepositories.LocationRepository.FindByAirportCode | redhat-weather-service/src/main/java/com/redhat/weather/domain/repository/LocationRepository.java:30-32 | a row with the code, or none exactly when no row has it |
| LocationRepositories.LocationRepository.FindByState | redhat-weather-service/src/main/java/com/redhat/weather/domain/repository/LocationRepository.java:34-36 | exactly the rows of the state; each matching row appears as often as the table holds it |
| LocationRepositories.LocationRepository.FindByCountry | redhat-weather-service/src/main/java/com/redhat/weather/domain/repository/LocationRepository.java:38-40 | exactly the rows of the country; each matching row appears as often as the table holds it |
| LocationRepositories.LocationRepository.FindByCoordinates | redhat-weather-service/src/main/java/com/redhat/weather/domain/repository/LocationRepository.java:42-44 | exactly the rows whose coordinates equal the given ones as numbers, whatever their scale; each matching row appears as often as the table holds it |
| LocationRepositories.LocationRepository.FindNearby | redhat-weather-service/src/main/java/com/redhat/weather/domain/repository/LocationRepository.java:46-55 | exactly the rows inside the inclusive box of half-width radius around the point; each matching row appears as often as the table holds it |
| LocationRepositories.LocationRepository.SearchByName | redhat-weather-service/src/main/java/com/redhat/weather/domain/repository/LocationRepository.java:57-59 | exactly the rows whose lower-cased name matches '%' + text + '%' lower-cased; each matching row appears as often as the table holds it |
| LocationRepositories.NoCodeNoAirport | redhat-weather-service/src/main/java/com/redhat/weather/domain/repository/LocationRepository.java:26-32 | when no location has an airport code, no listed airport location has it either |
| LocationServices.UpdateCopiesEditableFields | redhat-weather-service/src/main/java/com/redhat/weather/service/LocationService.java:48-63 | the updated entity holds the eight editable fields of the argument, the stored id and createdAt, and updatedAt moves to now exactly when something changed |
| LocationServices.UpdateWithSameValuesKeepsRow | redhat-weather-service/src/main/java/com/redhat/weather/service/LocationService.java:48-63 | updating a location with its own values writes back the very same row |
| LocationServices.LocationService.CreateLocation | redhat-weather-service/src/main/java/com/redhat/weather/service/LocationService.java:42-46 | returns the same object; it throws and stores nothing exactly when the entity is detached or rejected, else the row is appended with the next id; a new entity uses up an identity value even when rejected |
| LocationServices.LocationService.UpdateLocation | redhat-weather-service/src/main/java/com/redhat/weather/service/LocationService.java:48-63 | an unknown id returns null and changes nothing; otherwise the fields are copied, and the row replaced unless the UPDATE is rejected, which makes the call throw |
| LocationServices.LocationService.DeleteLocation | redhat-weather-service/src/main/java/com/redhat/weather/service/LocationService.java:65-68 | answers whether the id existed; when it did, exactly that row is removed and every other row kept in order, otherwise the table is unchanged; afterwards no row has the id |
| WeatherForecastEntities.Created | redhat-weather-service/src/main/java/com/redhat/weather/domain/entity/WeatherForecastEntity.java:88-94 | onCreate sets createdAt to now and fetchedAt to now only when it is null; every other field stays |
| WeatherForecastEntities.CreatedTwice | redhat-weather-service/src/main/java/com/redhat/weather/domain/entity/WeatherForecastEntity.java:88-94 | running the hook again later changes only createdAt, because fetchedAt is no longer null |
| WeatherForecastEntities.ToRow | redhat-weather-service/src/main/java/com/redhat/weather/domain/entity/WeatherForecastEntity.java:24-86 | an INSERT succeeds exactly when location, source, the four times, coordinates and forecast data are present, source fits in 50 characters and the short description in the 255-character default of a String column without a length |
| WeatherForecastEntities.ToRowLoadsBack | redhat-weather-service/src/main/java/com/redhat/weather/domain/entity/WeatherForecastEntity.java:24-86 | an accepted entity loads back from its row unchanged |
| WeatherForecastEntities.LoadedRowStores | redhat-weather-service/src/main/java/com/redhat/weather/domain/entity/WeatherForecastEntity.java:24-86 | every row satisfying the column limits stores back as itself |
| WeatherForecastEntities.WeatherForecastEntity.constructor | redhat-weather-service/src/main/java/com/redhat/weather/domain/entity/WeatherForecastEntity.java:18-86 | a new entity has every field null except isActive, which starts true |
| WeatherForecastEntities.WeatherForecastEntity.OnCreate | redhat-weather-service/src/main/java/com/redhat/weather/domain/entity/WeatherForecastEntity.java:88-94 | the hook updates the object in place to Created of its old state |
| WeatherForecastRepositories.SortedAscending | redhat-weather-service/src/main/java/com/redhat/weather/domain/repository/WeatherForecastRepository.java:15-63 | ORDER BY validFrom yields forecasts in ascending validFrom |
| WeatherForecastRepositories.Answer | redhat-weather-service/src/main/java/com/redhat/weather/domain/repository/WeatherForecastRepository.java:15-63 | a query answer holds exactly the rows satisfying its WHERE clause, in ascending validFrom; each matching row appears as often as the table holds it |
| WeatherForecastRepositories.WeatherForecastRepository.Persist | redhat-weather-service/src/main/java/com/redhat/weather/service/WeatherForecastService.java:122 | persist runs @PrePersist and appends the row exactly when the database accepts the entity |
| WeatherForecastRepositories.WeatherForecastRepository.PersistAll | redhat-weather-service/src/main/java/com/redhat/weather/service/WeatherForecastService.java:122 | persist(list) stores every row in order exactly when each entity is accepted, and reports failure otherwise |
| WeatherForecastRepositories.WeatherForecastRepository.DeactivateOldForecasts | redhat-weather-service/src/main/java/com/redhat/weather/domain/repository/WeatherForecastRepository.java:65-68 | every active row fetched before the cutoff gets isActive false, no other row changes, and the count is the number of such rows |
| WeatherForecastRepositories.WeatherForecastRepository.DeleteOldForecasts | redhat-weather-service/src/main/java/com/redhat/weather/domain/repository/WeatherForecastRepository.java:70-73 | the rows fetched before the cutoff are removed, active or not, the rest kept in order, and the count is of the removed rows |
| WeatherForecastRepositories.WeatherForecastRepository.FindByLocation | redhat-weather-service/src/main/java/com/redhat/weather/domain/repository/WeatherForecastRepository.java:15-17 | exactly the active rows of the location, ascending by validFrom; each matching row appears as often as the table holds it |
| WeatherForecastRepositories.WeatherForecastRepository.FindByLocationAndTimeRange | redhat-weather-service/src/main/java/com/redhat/weather/domain/repository/WeatherForecastRepository.java:19-24 | exactly the active rows of the location whose validity overlaps [from, to], ascending by validFrom; each matching row appears as often as the table holds it |
| WeatherForecastRepositories.WeatherForecastRepository.FindByCoordinates | redhat-weather-service/src/main/java/com/redhat/weather/domain/repository/WeatherForecastRepository.java:26-28 | exactly the active rows at the coordinates (numeric equality), ascending by validFrom; each matching row appears as often as the table holds it |
| WeatherForecastRepositories.WeatherForecastRepository.FindByCoordinatesAndTimeRange | redhat-weather-service/src/main/java/com/redhat/weather/domain/repository/WeatherForecastRepository.java:30-36 | exactly the active rows at the coordinates overlapping [from, to], ascending by validFrom; each matching row appears as often as the table holds it |
| WeatherForecastRepositories.WeatherForecastRepository.FindBySource | redhat-weather-service/src/main/java/com/redhat/weather/domain/repository/WeatherForecastRepository.java:38-40 | exactly the active rows of the source, ascending by validFrom; each matching row appears as often as the table holds it |
| WeatherForecastRepositories.WeatherForecastRepository.FindByTimeRange | redhat-weather-service/src/main/java/com/redhat/weather/domain/repository/WeatherForecastRepository.java:42-47 | exactly the active rows overlapping [from, to], ascending by validFrom; each matching row appears as often as the table holds it |
| WeatherForecastRepositories.WeatherForecastRepository.FindCurrent | redhat-weather-service/src/main/java/com/redhat/weather/domain/repository/WeatherForecastRepository.java:49-55 | exactly the active rows of the location valid at now, ascending by validFrom; each matching row appears as often as the table holds it |
| WeatherForecastRepositories.WeatherForecastRepository.FindCurrentByCoordinates | redhat-weather-service/src/main/java/com/redhat/weather/domain/repository/WeatherForecastRepository.java:57-63 | exactly the active rows at the coordinates valid at now, ascending by validFrom; each matching row appears as often as the table holds it |
| WeatherForecastRepositories.DeactivateChangesOnlyStaleRows | redhat-weather-service/src/main/java/com/redhat/weather/domain/repository/WeatherForecastRepository.java:65-68 | a stale row changes only in isActive, and any other row not at all |
| WeatherForecastRepositories.DeactivateTwiceCountsZero | redhat-weather-service/src/main/java/com/redhat/weather/domain/repository/WeatherForecastRepository.java:65-68 | after the update no row is stale, so a second run with the same cutoff changes and counts nothing |
| WeatherForecastRepositories.DeleteTwiceCountsZero | redhat-weather-service/src/main/java/com/redhat/weather/domain/repository/WeatherForecastRepository.java:70-73 | after the delete no row older than the cutoff is left |
| WeatherForecastServices.FahrenheitToCelsius | redhat-weather-service/src/main/java/com/redhat/weather/service/WeatherForecastService.java:208-213 | null maps to null; otherwise the result has scale 2 and is (F - 32) * 5 / 9 rounded half-up, ties away from zero |
| WeatherForecastServices.FreezingPoint | redhat-weather-service/src/main/java/com/redhat/weather/service/WeatherForecastService.java:208-213 | 32 °F is 0.00 °C |
| WeatherForecastServices.BoilingPoint | redhat-weather-service/src/main/java/com/redhat/weather/service/WeatherForecastService.java:208-213 | 212 °F is 100.00 °C |
| WeatherForecastServices.TiesRoundAwayFromZero | redhat-weather-service/src/main/java/com/redhat/weather/service/WeatherForecastService.java:208-213 | a result half a hundredth from zero rounds away from zero on both sides of zero |
| WeatherForecastServices.WindSpeedLeadingNumber | redhat-weather-service/src/main/java/com/redhat/weather/service/WeatherForecastService.java:215-223 | a wind speed text starting with a plain number and a space ("10 mph", "10 to 20 mph") reads as that number, for every scale a BigDecimal can have |
| WeatherForecastServices.WindSpeedNotANumber | redhat-weather-service/src/main/java/com/redhat/weather/service/WeatherForecastService.java:215-223 | when the first token is not a number the wind speed is null |
| WeatherForecastServices.WindDirectionIsCompassBearing | redhat-weather-service/src/main/java/com/redhat/weather/service/WeatherForecastService.java:225-246 | a direction has a bearing exactly when its upper case is one of the sixteen compass points, and point i gives i × 22.5 degrees rounded down |
| WeatherForecastServices.WindDirectionIgnoresCase | redhat-weather-service/src/main/java/com/redhat/weather/service/WeatherForecastService.java:225-246 | the direction lookup gives the same answer for a lower-cased direction |
| WeatherForecastServices.NoaaStoresEveryPeriod | redhat-weather-service/src/main/java/com/redhat/weather/service/WeatherForecastService.java:92-122 | the NOAA periods are stored all or none: all exactly when every short forecast fits its column, and row i then carries period i, the location, now, isActive and a Celsius derived from the Fahrenheit |
| WeatherForecastServices.OpenWeatherItemConverts | redhat-weather-service/src/main/java/com/redhat/weather/service/WeatherForecastService.java:158-189 | an item converts exactly when temperature and wind speed are finite and dt and dt + 3 h lie in the LocalDateTime range; validFrom is dt and validTo dt + 3 h |
| WeatherForecastServices.OpenWeatherRowCoversThreeHours | redhat-weather-service/src/main/java/com/redhat/weather/service/WeatherForecastService.java:158-194 | a converted item is stored exactly when its weather text fits; its row is from openweathermap, at the location, spans three hours and has a consistent Celsius |
| WeatherForecastServices.OutcomeOnlyAppends | redhat-weather-service/src/main/java/com/redhat/weather/service/WeatherForecastService.java:122-127 | a fetch only appends: the earlier rows stay, either nothing or the whole list is added, and a failing commit leaves the table as it was |
| WeatherForecastServices.WeatherForecastService.constructor | redhat-weather-service/src/main/java/com/redhat/weather/service/WeatherForecastService.java:31-46 | the service holds the injected repositories and the configured API key |
| WeatherForecastServices.WeatherForecastService.GetForecastsByLocation | redhat-weather-service/src/main/java/com/redhat/weather/service/WeatherForecastService.java:48-50 | exactly the active forecasts of the location, ascending by validFrom; each matching row appears as often as the table holds it |
| WeatherForecastServices.WeatherForecastService.GetForecastsByCoordinates | redhat-weather-service/src/main/java/com/redhat/weather/service/WeatherForecastService.java:52-55 | exactly the active forecasts at the coordinates whose window overlaps [from, to], ascending by validFrom; each matching row appears as often as the table holds it |
| WeatherForecastServices.WeatherForecastService.GetCurrentForecast | redhat-weather-service/src/main/java/com/redhat/weather/service/WeatherForecastService.java:57-59 | exactly the active forecasts at the coordinates whose window contains now, ascending by validFrom; each matching row appears as often as the table holds it |
| WeatherForecastServices.WeatherForecastService.Store | redhat-weather-service/src/main/java/com/redhat/weather/service/WeatherForecastService.java:122-127 | persist(list) in the transaction: the exception reaches the caller exactly when the commit fails, and the table becomes the outcome of the plan |
| WeatherForecastServices.WeatherForecastService.BuildNoaaEntities | redhat-weather-service/src/main/java/com/redhat/weather/service/WeatherForecastService.java:95-120 | one new, distinct entity per NOAA period, in order, each holding that period's fields |
| WeatherForecastServices.WeatherForecastService.ConvertItems | redhat-weather-service/src/main/java/com/redhat/weather/service/WeatherForecastService.java:158-192 | the item conversions in order, or none as soon as one item throws |
| WeatherForecastServices.WeatherForecastService.BuildOpenWeatherEntities | redhat-weather-service/src/main/java/com/redhat/weather/service/WeatherForecastService.java:158-192 | one new, distinct entity per converted item, in order, and none when an item throws |
| WeatherForecastServices.WeatherForecastService.FetchAndStoreNoaaForecast | redhat-weather-service/src/main/java/com/redhat/weather/service/WeatherForecastService.java:61-128 | sends the requests of the NOAA plan (none for an unknown location, no forecast call without a forecast URL) and leaves the table as the plan's outcome; only a commit failure propagates |
| WeatherForecastServices.WeatherForecastService.FetchAndStoreOpenWeatherForecast | redhat-weather-service/src/main/java/com/redhat/weather/service/WeatherForecastService.java:130-200 | sends nothing without an API key or a known location, otherwise the OpenWeatherMap plan's requests, and leaves the table as the plan's outcome |
| WeatherForecastServices.WeatherForecastService.DeactivateOldForecasts | redhat-weather-service/src/main/java/com/redhat/weather/service/WeatherForecastService.java:202-206 | retires exactly the active forecasts fetched before the cutoff and returns their number; a failed commit leaves the table unchanged |
| AirportWeatherEntities.Created | redhat-weather-service/src/main/java/com/redhat/weather/domain/entity/AirportWeatherEntity.java:101-107 | onCreate sets createdAt to now and fetchedAt to now only when it is null; every other field stays |
| AirportWeatherEntities.ToRow | redhat-weather-service/src/main/java/com/redhat/weather/domain/entity/AirportWeatherEntity.java:24-99 | an INSERT succeeds exactly when location, airport code, both times, coordinates, report type and raw text are present, code, report type and flight category fit in 10 characters, and sky condition and weather conditions fit in the 255-character default of a String column without a length |
| AirportWeatherEntities.ToRowLoadsBack | redhat-weather-service/src/main/java/com/redhat/weather/domain/entity/AirportWeatherEntity.java:24-99 | an accepted entity loads back from its row unchanged |
| AirportWeatherEntities.StoredCodesAreShort | redhat-weather-service/src/main/java/com/redhat/weather/domain/entity/AirportWeatherEntity.java:28-47 | every stored report has an airport code and a report type of at most ten characters |
| AirportWeatherEntities.AirportWeatherEntity.constructor | redhat-weather-service/src/main/java/com/redhat/weather/domain/entity/AirportWeatherEntity.java:18-99 | a new entity has every field null except isActive, which starts true |
| AirportWeatherEntities.AirportWeatherEntity.Of | redhat-weather-service/src/main/java/com/redhat/weather/domain/entity/AirportWeatherEntity.java:18-99 | an entity whose fields hold the given values |
| AirportWeatherEntities.AirportWeatherEntity.OnCreate | redhat-weather-service/src/main/java/com/redhat/weather/domain/entity/AirportWeatherEntity.java:101-107 | the hook updates the object in place to Created of its old state |
| AirportWeatherRepositories.Newest | redhat-weather-service/src/main/java/com/redhat/weather/domain/repository/AirportWeatherRepository.java:15-59 | a WHERE ... ORDER BY observationTime DESC query holds exactly the rows satisfying the clause, newest first; each matching row appears as often as the table holds it |
| AirportWeatherRepositories.Latest | redhat-weather-service/src/main/java/com/redhat/weather/domain/repository/AirportWeatherRepository.java:19-32 | firstResultOptional of such a query: a matching row no matching row is newer than, or none exactly when no row matches |
| AirportWeatherRepositories.AirportWeatherRepository.constructor | redhat-weather-service/src/main/java/com/redhat/weather/domain/repository/AirportWeatherRepository.java:13 | the repository starts with the given rows |
| AirportWeatherRepositories.AirportWeatherRepository.Persist | redhat-weather-service/src/main/java/com/redhat/weather/service/AirportWeatherService.java:135 | persist runs @PrePersist and appends the row exactly when the database accepts the entity |
| AirportWeatherRepositories.AirportWeatherRepository.DeactivateOldReports | redhat-weather-service/src/main/java/com/redhat/weather/domain/repository/AirportWeatherRepository.java:61-64 | every active report fetched before the cutoff gets isActive false, no other row changes, and the count is the number of such rows |
| AirportWeatherRepositories.AirportWeatherRepository.DeleteOldReports | redhat-weather-service/src/main/java/com/redhat/weather/domain/repository/AirportWeatherRepository.java:66-69 | removes exactly the reports fetched before the cutoff, active or not, keeps the rest in order, and counts the removed ones |
| AirportWeatherRepositories.AirportWeatherRepository.FindByAirportCode | redhat-weather-service/src/main/java/com/redhat/weather/domain/repository/AirportWeatherRepository.java:15-17 | exactly the active reports of the airport, newest first; each matching row appears as often as the table holds it |
| AirportWeatherRepositories.AirportWeatherRepository.FindLatestByAirportCode | redhat-weather-service/src/main/java/com/redhat/weather/domain/repository/AirportWeatherRepository.java:19-22 | an active report of the airport that no active report of it is newer than, or none exactly when it has none |
| AirportWeatherRepositories.AirportWeatherRepository.FindLatestMetar | redhat-weather-service/src/main/java/com/redhat/weather/domain/repository/AirportWeatherRepository.java:24-27 | the newest active METAR of the airport, or none exactly when it has none |
| AirportWeatherRepositories.AirportWeatherRepository.FindLatestTaf | redhat-weather-service/src/main/java/com/redhat/weather/domain/repository/AirportWeatherRepository.java:29-32 | the newest active TAF of the airport, or none exactly when it has none |
| AirportWeatherRepositories.AirportWeatherRepository.FindByReportType | redhat-weather-service/src/main/java/com/redhat/weather/domain/repository/AirportWeatherRepository.java:34-36 | exactly the active reports of the type, newest first; each matching row appears as often as the table holds it |
| AirportWeatherRepositories.AirportWeatherRepository.FindByFlightCategory | redhat-weather-service/src/main/java/com/redhat/weather/domain/repository/AirportWeatherRepository.java:38-40 | exactly the active reports of the flight category, newest first; each matching row appears as often as the table holds it |
| AirportWeatherRepositories.AirportWeatherRepository.FindByLocation | redhat-weather-service/src/main/java/com/redhat/weather/domain/repository/AirportWeatherRepository.java:42-44 | exactly the active reports of the location, newest first; each matching row appears as often as the table holds it |
| AirportWeatherRepositories.AirportWeatherRepository.FindByTimeRange | redhat-weather-service/src/main/java/com/redhat/weather/domain/repository/AirportWeatherRepository.java:46-51 | exactly the active reports observed within [from, to], both ends included, newest first; each matching row appears as often as the table holds it |
| AirportWeatherRepositories.AirportWeatherRepository.FindByAirportCodeAndTimeRange | redhat-weather-service/src/main/java/com/redhat/weather/domain/repository/AirportWeatherRepository.java:53-59 | exactly the active reports of the airport observed within [from, to], newest first; each matching row appears as often as the table holds it |
| AirportWeatherRepositories.DeactivateChangesOnlyStaleRows | redhat-weather-service/src/main/java/com/redhat/weather/domain/repository/AirportWeatherRepository.java:61-64 | a stale report changes only in isActive, and any other report stays as it was |
| AirportWeatherRepositories.DeactivateTwiceCountsZero | redhat-weather-service/src/main/java/com/redhat/weather/domain/repository/AirportWeatherRepository.java:61-64 | after the update no report is stale, so a second run with the same cutoff counts zero and changes nothing |
| AirportWeatherRepositories.DeleteTwiceCountsZero | redhat-weather-service/src/main/java/com/redhat/weather/domain/repository/AirportWeatherRepository.java:66-69 | after the delete no report older than the cutoff is left |
| AirportWeatherRepositories.LatestMetarIsNewestMetar | redhat-weather-service/src/main/java/com/redhat/weather/domain/repository/AirportWeatherRepository.java:15-27 | the latest METAR is one of the airport's reports and no METAR among them is newer |
| AirportWeatherServices.InsertUntilThrow | redhat-weather-service/src/main/java/com/redhat/weather/service/AirportWeatherService.java:63-74 | the reports persisted one after another never give more rows than there are reports |
| AirportWeatherServices.MetarConverts | redhat-weather-service/src/main/java/com/redhat/weather/service/AirportWeatherService.java:108-136 | a METAR converts exactly when every Double it carries is finite; it then is an active METAR of the location fetched at now, with the station code of the report or of the location, the own latitude of the report and longitude as BigDecimal.valueOf of its Doubles or those of the location where the report has none, the observation time parsed from the report time exactly when there is one, temperature, dewpoint, visibility and altimeter equal to BigDecimal.valueOf of the values of the report and null exactly when the report has none, and wind, gust, ceiling, flight category and sky condition copied unchanged |
| AirportWeatherServices.TafConverts | redhat-weather-service/src/main/java/com/redhat/weather/service/AirportWeatherService.java:138-154 | a TAF converts exactly when its coordinates, where present, are finite; it then is an active TAF of the location with the station code of the report or of the location, the own latitude of the report and longitude as BigDecimal.valueOf of its Doubles or those of the location where it has none, the raw TAF text, the observation time parsed from the issue time exactly when there is one, and every weather field null |
| AirportWeatherServices.EveryReportStored | redhat-weather-service/src/main/java/com/redhat/weather/service/AirportWeatherService.java:63-70 | when every report converts and is accepted, exactly one row per report is stored, in order |
| AirportWeatherServices.ThrowKeepsEarlierRows | redhat-weather-service/src/main/java/com/redhat/weather/service/AirportWeatherService.java:63-74 | when report k throws after k accepted reports, the catch keeps exactly those k rows, in order |
| AirportWeatherServices.RejectionDiscardsFetch | redhat-weather-service/src/main/java/com/redhat/weather/service/AirportWeatherService.java:63-74 | a report the database rejects, before any report throws, rolls back the whole fetch |
| AirportWeatherServices.MetarWithoutTimeIsRejected | redhat-weather-service/src/main/java/com/redhat/weather/service/AirportWeatherService.java:118-121 | a METAR without a report time leaves observationTime null, which the NOT NULL column refuses |
| AirportWeatherServices.OutcomeOnlyAppends | redhat-weather-service/src/main/java/com/redhat/weather/service/AirportWeatherService.java:46-75 | a fetch only appends at most one row per report, and a failing commit leaves the table as it was |
| AirportWeatherServices.AirportWeatherService.constructor | redhat-weather-service/src/main/java/com/redhat/weather/service/AirportWeatherService.java:24-32 | the service holds the injected repositories |
| AirportWeatherServices.AirportWeatherService.GetAirportWeather | redhat-weather-service/src/main/java/com/redhat/weather/service/AirportWeatherService.java:34-36 | exactly the active reports of the airport, newest first; each matching row appears as often as the table holds it |
| AirportWeatherServices.AirportWeatherService.GetLatestMetar | redhat-weather-service/src/main/java/com/redhat/weather/service/AirportWeatherService.java:38-40 | the newest active METAR of the airport, or none exactly when it has none |
| AirportWeatherServices.AirportWeatherService.GetLatestTaf | redhat-weather-service/src/main/java/com/redhat/weather/service/AirportWeatherService.java:42-44 | the newest active TAF of the airport, or none exactly when it has none |
| AirportWeatherServices.AirportWeatherService.StoreAll | redhat-weather-service/src/main/java/com/redhat/weather/service/AirportWeatherService.java:63-66 | the persist loop succeeds exactly when no report is rejected before one throws, and then appends the rows of the reports before the first that throws |
| AirportWeatherServices.AirportWeatherService.Store | redhat-weather-service/src/main/java/com/redhat/weather/service/AirportWeatherService.java:46-75 | the transaction around the loop: only a failing commit reaches the caller, and the table becomes the outcome of the reports |
| AirportWeatherServices.AirportWeatherService.FetchAndStoreMetar | redhat-weather-service/src/main/java/com/redhat/weather/service/AirportWeatherService.java:46-75 | sends nothing for an unknown airport, otherwise the METAR request, and leaves the table as the outcome of the converted reports |
| AirportWeatherServices.AirportWeatherService.FetchAndStoreTaf | redhat-weather-service/src/main/java/com/redhat/weather/service/AirportWeatherService.java:77-106 | sends nothing for an unknown airport, otherwise the TAF request, and leaves the table as the outcome of the converted reports |
| AirportWeatherServices.AirportWeatherService.DeactivateOldReports | redhat-weather-service/src/main/java/com/redhat/weather/service/AirportWeatherService.java:156-160 | retires exactly the active reports fetched before the cutoff and returns their number; a failed commit leaves the table unchanged |
| HurricaneEntities.Created | redhat-weather-service/src/main/java/com/redhat/weather/domain/entity/HurricaneEntity.java:101-107 | onCreate sets createdAt to now and fetchedAt to now only when it is null; every other field stays |
| HurricaneEntities.ToRow | redhat-weather-service/src/main/java/com/redhat/weather/domain/entity/HurricaneEntity.java:24-99 | an INSERT succeeds exactly when storm id, the three times, coordinates and forecast data are present and the 50/100/10/50-character limits of storm id, name, basin and the three labels hold (every String column here has an explicit length) |
| HurricaneEntities.ToRowLoadsBack | redhat-weather-service/src/main/java/com/redhat/weather/domain/entity/HurricaneEntity.java:24-99 | an accepted entity loads back from its row unchanged |
| HurricaneEntities.StoredStamps | redhat-weather-service/src/main/java/com/redhat/weather/domain/entity/HurricaneEntity.java:101-107 | a persisted advisory is created at now, keeps the fetchedAt it was given (now if none) and keeps its isActive |
| HurricaneEntities.HurricaneEntity.constructor | redhat-weather-service/src/main/java/com/redhat/weather/domain/entity/HurricaneEntity.java:18-99 | a new entity has every field null except isActive, which starts true |
| HurricaneEntities.HurricaneEntity.Of | redhat-weather-service/src/main/java/com/redhat/weather/domain/entity/HurricaneEntity.java:18-99 | an entity whose fields hold the given values |
| HurricaneEntities.HurricaneEntity.OnCreate | redhat-weather-service/src/main/java/com/redhat/weather/domain/entity/HurricaneEntity.java:101-107 | the hook updates the object in place to Created of its old state |
| HurricaneRepositories.Newest | redhat-weather-service/src/main/java/com/redhat/weather/domain/repository/HurricaneRepository.java:15-63 | a WHERE ... ORDER BY advisoryTime DESC query holds exactly the rows satisfying the clause, newest first; each matching row appears as often as the table holds it |
| HurricaneRepositories.Oldest | redhat-weather-service/src/main/java/com/redhat/weather/domain/repository/HurricaneRepository.java:65-70 | a WHERE ... ORDER BY advisoryTime ASC query holds exactly the rows satisfying the clause, oldest first; each matching row appears as often as the table holds it |
| HurricaneRepositories.StormNumberOrder | redhat-weather-service/src/main/java/com/redhat/weather/domain/repository/HurricaneRepository.java:42-44 | ORDER BY stormNumber, advisoryTime DESC: storm numbers ascend with nulls last, and within one storm number newer advisories come first |
| HurricaneRepositories.CategoryOrder | redhat-weather-service/src/main/java/com/redhat/weather/domain/repository/HurricaneRepository.java:50-52 | ORDER BY category DESC, advisoryTime DESC: categories descend, and within one category newer advisories come first |
| HurricaneRepositories.HurricaneRepository.constructor | redhat-weather-service/src/main/java/com/redhat/weather/domain/repository/HurricaneRepository.java:13 | the repository starts with the given rows |
| HurricaneRepositories.HurricaneRepository.Persist | redhat-weather-service/src/main/java/com/redhat/weather/service/HurricaneService.java:116 | persist runs @PrePersist and appends the row exactly when the database accepts the entity |
| HurricaneRepositories.HurricaneRepository.PersistAll | redhat-weather-service/src/main/java/com/redhat/weather/service/HurricaneService.java:116 | persist(list) stores every row in order exactly when each entity is accepted, and reports failure otherwise |
| HurricaneRepositories.HurricaneRepository.DeactivateOldAdvisories | redhat-weather-service/src/main/java/com/redhat/weather/domain/repository/HurricaneRepository.java:72-75 | every active advisory fetched before the cutoff gets isActive false, no other row changes, and the count is the number of such rows |
| HurricaneRepositories.HurricaneRepository.DeleteOldAdvisories | redhat-weather-service/src/main/java/com/redhat/weather/domain/repository/HurricaneRepository.java:77-80 | removes exactly the advisories fetched before the cutoff, active or not, keeps the rest in order, and counts the removed ones |
| HurricaneRepositories.HurricaneRepository.FindActiveStorms | redhat-weather-service/src/main/java/com/redhat/weather/domain/repository/HurricaneRepository.java:15-19 | exactly the active advisories whose status is "active" or "Active", newest first; each matching row appears as often as the table holds it |
| HurricaneRepositories.HurricaneRepository.FindByStormId | redhat-weather-service/src/main/java/com/redhat/weather/domain/repository/HurricaneRepository.java:21-23 | exactly the advisories of the storm, retired ones included, newest first; each matching row appears as often as the table holds it |
| HurricaneRepositories.HurricaneRepository.FindLatestByStormId | redhat-weather-service/src/main/java/com/redhat/weather/domain/repository/HurricaneRepository.java:25-28 | an advisory of the storm that no advisory of it is newer than, or none exactly when the storm has none |
| HurricaneRepositories.HurricaneRepository.FindByStormName | redhat-weather-service/src/main/java/com/redhat/weather/domain/repository/HurricaneRepository.java:30-32 | exactly the advisories with the storm name, newest first; each matching row appears as often as the table holds it |
| HurricaneRepositories.HurricaneRepository.FindByBasin | redhat-weather-service/src/main/java/com/redhat/weather/domain/repository/HurricaneRepository.java:34-36 | exactly the active advisories of the basin, newest first; each matching row appears as often as the table holds it |
| HurricaneRepositories.HurricaneRepository.FindByYear | redhat-weather-service/src/main/java/com/redhat/weather/domain/repository/HurricaneRepository.java:38-40 | exactly the advisories of the year, newest first; each matching row appears as often as the table holds it |
| HurricaneRepositories.HurricaneRepository.FindByBasinAndYear | redhat-weather-service/src/main/java/com/redhat/weather/domain/repository/HurricaneRepository.java:42-44 | exactly the advisories of the basin and year, by storm number and then newest first; each matching row appears as often as the table holds it |
| HurricaneRepositories.HurricaneRepository.FindByCategory | redhat-weather-service/src/main/java/com/redhat/weather/domain/repository/HurricaneRepository.java:46-48 | exactly the active advisories of the category, newest first; each matching row appears as often as the table holds it |
| HurricaneRepositories.HurricaneRepository.FindByMinimumCategory | redhat-weather-service/src/main/java/com/redhat/weather/domain/repository/HurricaneRepository.java:50-52 | exactly the active advisories whose category is known and at least the minimum, strongest first and then newest first; each matching row appears as often as the table holds it |
| HurricaneRepositories.HurricaneRepository.FindByStatus | redhat-weather-service/src/main/java/com/redhat/weather/domain/repository/HurricaneRepository.java:54-56 | exactly the advisories with the status, newest first; each matching row appears as often as the table holds it |
| HurricaneRepositories.HurricaneRepository.FindByTimeRange | redhat-weather-service/src/main/java/com/redhat/weather/domain/repository/HurricaneRepository.java:58-63 | exactly the active advisories issued within [from, to], both ends included, newest first; each matching row appears as often as the table holds it |
| HurricaneRepositories.HurricaneRepository.FindStormTrack | redhat-weather-service/src/main/java/com/redhat/weather/domain/repository/HurricaneRepository.java:65-70 | exactly the advisories of the storm issued within [from, to], retired ones included, oldest first; each matching row appears as often as the table holds it |
| HurricaneRepositories.DeactivateChangesOnlyStaleRows | redhat-weather-service/src/main/java/com/redhat/weather/domain/repository/HurricaneRepository.java:72-75 | a stale advisory changes only in isActive, and any other advisory stays as it was |
| HurricaneRepositories.DeactivateTwiceCountsZero | redhat-weather-service/src/main/java/com/redhat/weather/domain/repository/HurricaneRepository.java:72-75 | after the update no advisory is stale, so a second run with the same cutoff counts zero and changes nothing |
| HurricaneRepositories.DeleteTwiceCountsZero | redhat-weather-service/src/main/java/com/redhat/weather/domain/repository/HurricaneRepository.java:77-80 | after the delete no advisory older than the cutoff is left |
| HurricaneServices.KnotsToMph | redhat-weather-service/src/main/java/com/redhat/weather/service/HurricaneService.java:131-134 | null stays null and a value gives a value |
| HurricaneServices.KnotsToMphRounds | redhat-weather-service/src/main/java/com/redhat/weather/service/HurricaneService.java:131-134 | for speeds that do not overflow, the result is knots × 1.15078 rounded half up to a whole mph |
| HurricaneServices.HundredKnots | redhat-weather-service/src/main/java/com/redhat/weather/service/HurricaneService.java:131-134 | 100 kt is 115 mph and 64 kt (the hurricane threshold) is 74 mph |
| HurricaneServices.DetermineCategory | redhat-weather-service/src/main/java/com/redhat/weather/service/HurricaneService.java:136-144 | the category is between 0 and 5 |
| HurricaneServices.CategoryCountsThresholds | redhat-weather-service/src/main/java/com/redhat/weather/service/HurricaneService.java:136-144 | the category is the number of the Saffir-Simpson thresholds 74, 96, 111, 130 and 157 mph the wind reaches |
| HurricaneServices.CategoryMonotone | redhat-weather-service/src/main/java/com/redhat/weather/service/HurricaneService.java:136-144 | a stronger wind never has a lower category |
| HurricaneServices.AdvisoryConverts | redhat-weather-service/src/main/java/com/redhat/weather/service/HurricaneService.java:61-108 | a storm converts exactly when its binNumber has a number after the basin and its position and movement are finite where present; its advisory then has the basin prefix, the converted wind, its category, the current year, status "active" and fetchedAt now |
| HurricaneServices.MissingPositionDiscardsFetch | redhat-weather-service/src/main/java/com/redhat/weather/service/HurricaneService.java:75-79 | a storm without latestPosition converts with null coordinates, which the NOT NULL columns reject, so the whole persist(list) fails |
| HurricaneServices.OutcomeOnlyAppends | redhat-weather-service/src/main/java/com/redhat/weather/service/HurricaneService.java:115-122 | a fetch only appends: the earlier rows stay, either nothing or every converted storm is added, and a failing commit leaves the table as it was |
| HurricaneServices.HurricaneService.constructor | redhat-weather-service/src/main/java/com/redhat/weather/service/HurricaneService.java:26-31 | the service holds the injected repository |
| HurricaneServices.HurricaneService.GetActiveStorms | redhat-weather-service/src/main/java/com/redhat/weather/service/HurricaneService.java:33-35 | exactly the active advisories with an active status, newest first; each matching row appears as often as the table holds it |
| HurricaneServices.HurricaneService.GetStormById | redhat-weather-service/src/main/java/com/redhat/weather/service/HurricaneService.java:37-39 | exactly the advisories of the storm, newest first; each matching row appears as often as the table holds it |
| HurricaneServices.HurricaneService.GetStormTrack | redhat-weather-service/src/main/java/com/redhat/weather/service/HurricaneService.java:41-43 | exactly the advisories of the storm within [from, to], oldest first; each matching row appears as often as the table holds it |
| HurricaneServices.HurricaneService.BuildAdvisories | redhat-weather-service/src/main/java/com/redhat/weather/service/HurricaneService.java:59-113 | one new, distinct entity per storm that converts, in order; a storm that throws is skipped |
| HurricaneServices.HurricaneService.BuildConverted | redhat-weather-service/src/main/java/com/redhat/weather/service/HurricaneService.java:61-113 | the same loop for any conversion: one new, distinct entity per converted storm, in order |
| HurricaneServices.HurricaneService.FetchAndStoreActiveStorms | redhat-weather-service/src/main/java/com/redhat/weather/service/HurricaneService.java:45-123 | sends the NHC request and leaves the table as the outcome of the converted storms; only a commit failure reaches the caller |
| HurricaneServices.HurricaneService.Persist | redhat-weather-service/src/main/java/com/redhat/weather/service/HurricaneService.java:115-118 | persists the entities when there are any; a rejected row rolls the whole list back |
| HurricaneServices.HurricaneService.DeactivateOldAdvisories | redhat-weather-service/src/main/java/com/redhat/weather/service/HurricaneService.java:125-129 | retires exactly the active advisories fetched before the cutoff and returns their number; a failed commit leaves the table unchanged |
| AirportCsvLoaders.CsvFields | redhat-weather-service/src/main/java/com/redhat/weather/service/AirportCsvLoader.java:158-178 | a line always gives at least one field |
| AirportCsvLoaders.ParseCsvFields | redhat-weather-service/src/main/java/com/redhat/weather/service/AirportCsvLoader.java:158-178 | the character loop returns exactly the fields the scanner closes, then the trimmed remainder |
| AirportCsvLoaders.ScanCounts | redhat-weather-service/src/main/java/com/redhat/weather/service/AirportCsvLoader.java:163-174 | after any prefix the loop is inside quotes exactly when it has seen an odd number of quotes, and has closed one field per comma outside quotes |
| AirportCsvLoaders.FieldCount | redhat-weather-service/src/main/java/com/redhat/weather/service/AirportCsvLoader.java:158-178 | there is one field more than there are commas outside quotes |
| AirportCsvLoaders.ScanClean | redhat-weather-service/src/main/java/com/redhat/weather/service/AirportCsvLoader.java:163-174 | no field the loop closed, nor the one it is building, holds a quote, and closed fields are trimmed |
| AirportCsvLoaders.CsvFieldsClean | redhat-weather-service/src/main/java/com/redhat/weather/service/AirportCsvLoader.java:158-178 | every returned field is trimmed and holds no quote character |
| AirportCsvLoaders.ScanLiteral | redhat-weather-service/src/main/java/com/redhat/weather/service/AirportCsvLoader.java:163-174 | text without quotes is appended to the current field, commas included while inside quotes |
| AirportCsvLoaders.ScanSnoc | redhat-weather-service/src/main/java/com/redhat/weather/service/AirportCsvLoader.java:163-174 | one more character is one step of the loop: a quote toggles, a comma outside quotes closes the trimmed field, anything else is appended |
| AirportCsvLoaders.QuotedSpan | redhat-weather-service/src/main/java/com/redhat/weather/service/AirportCsvLoader.java:166-172 | a quoted span joins the current field without its quotes, commas and all |
| AirportCsvLoaders.QuotedFieldKeepsCommas | redhat-weather-service/src/main/java/com/redhat/weather/service/AirportCsvLoader.java:158-178 | a line that is one quoted field gives that field, commas kept, trimmed |
| AirportCsvLoaders.CsvFieldsOfJoin | redhat-weather-service/src/main/java/com/redhat/weather/service/AirportCsvLoader.java:158-178 | plain fields joined by commas split back into exactly those fields |
| AirportCsvLoaders.RegionIsSubdivision | redhat-weather-service/src/main/java/com/redhat/weather/service/AirportCsvLoader.java:205-217 | "US-CA" and "US-CA-XX" both give "CA", the piece after the first dash |
| AirportCsvLoaders.RegionWithoutSubdivision | redhat-weather-service/src/main/java/com/redhat/weather/service/AirportCsvLoader.java:205-217 | an empty region gives the municipality and a region without a dash is kept as it is |
| AirportCsvLoaders.RegionWithTrailingDash | redhat-weather-service/src/main/java/com/redhat/weather/service/AirportCsvLoader.java:211-216 | "US-" is kept whole, because split drops the trailing empty piece |
| AirportCsvLoaders.ParseCsvLine | redhat-weather-service/src/main/java/com/redhat/weather/service/AirportCsvLoader.java:108-153 | whatever a line yields is a new location of type "airport" with a non-empty airport code |
| AirportCsvLoaders.ParsedAirport | redhat-weather-service/src/main/java/com/redhat/weather/service/AirportCsvLoader.java:108-153 | a line yields an airport exactly when it has 14 fields, a relevant type, an ICAO code and parsable coordinates; the airport has field 12 as its code, field 3 as its name and a non-empty country, field 8 when that is given |
| AirportCsvLoaders.JoinedRowParses | redhat-weather-service/src/main/java/com/redhat/weather/service/AirportCsvLoader.java:108-153 | a row of plain fields with a relevant type, an ICAO code and valid coordinates reads back as the airport those fields describe |
| AirportCsvLoaders.InsertedRows | redhat-weather-service/src/main/java/com/redhat/weather/service/AirportCsvLoader.java:222-226 | persistBatch inserts the batch whole, in order and under consecutive ids, exactly when every airport of it is accepted |
| AirportCsvLoaders.StepProgress | redhat-weather-service/src/main/java/com/redhat/weather/service/AirportCsvLoader.java:58-87 | one line keeps the load invariant: it is counted once, as loaded only when it parses, and an admitted code joins the loaded codes at the end |
| AirportCsvLoaders.StepDistinct | redhat-weather-service/src/main/java/com/redhat/weather/service/AirportCsvLoader.java:64-76 | when the batch is checked as well as the table, the codes loaded so far stay pairwise distinct |
| AirportCsvLoaders.RunProgress | redhat-weather-service/src/main/java/com/redhat/weather/service/AirportCsvLoader.java:58-87 | after any prefix of the lines every line is counted, rows are stored in whole batches of 100, no more airports are loaded than lines parse, and each loaded code is new to the starting table |
| AirportCsvLoaders.FinishProgress | redhat-weather-service/src/main/java/com/redhat/weather/service/AirportCsvLoader.java:89-92 | persisting the remaining batch turns the codes loaded so far into the codes of the new rows |
| AirportCsvLoaders.LoadAddsOnlyNewAirports | redhat-weather-service/src/main/java/com/redhat/weather/service/AirportCsvLoader.java:33-102 | a missing or empty file loads nothing; otherwise a load that does not throw only appends airport rows with codes the table did not hold, one per airport counted, never more than the lines that parse |
| AirportCsvLoaders.LinesAddOnlyNewAirports | redhat-weather-service/src/main/java/com/redhat/weather/service/AirportCsvLoader.java:57-101 | the same for the data lines after the header |
| AirportCsvLoaders.FollowsCodes | redhat-weather-service/src/main/java/com/redhat/weather/service/AirportCsvLoader.java:64-67 | under the admitted airports, a code is in the table or the batch exactly when it is in the starting table or on an admitted airport |
| AirportCsvLoaders.StepFollows | redhat-weather-service/src/main/java/com/redhat/weather/service/AirportCsvLoader.java:58-87 | with the batch checked too, or a code not yet admitted, one line adds its airport to the admitted ones exactly as the loop admits it, stored or waiting |
| AirportCsvLoaders.RunFollows | redhat-weather-service/src/main/java/com/redhat/weather/service/AirportCsvLoader.java:58-87 | with the batch checked too or distinct codes, after any prefix of the lines the stored rows are the rows of the first admitted airports, in file order under consecutive ids, and the rest of them wait in the batch |
| AirportCsvLoaders.FinishFollows | redhat-weather-service/src/main/java/com/redhat/weather/service/AirportCsvLoader.java:89-92 | persisting the remaining batch completes the rows of all admitted airports |
| AirportCsvLoaders.LoadStoresAdmitted | redhat-weather-service/src/main/java/com/redhat/weather/service/AirportCsvLoader.java:33-102 | with the batch checked too, or distinct codes, a load that does not throw appends exactly one row per admitted airport, in file order under consecutive ids, and returns their number |
| AirportCsvLoaders.LinesStoreAdmitted | redhat-weather-service/src/main/java/com/redhat/weather/service/AirportCsvLoader.java:57-101 | the same for the data lines after the header |
| AirportCsvLoaders.AdmittedFromLines | redhat-weather-service/src/main/java/com/redhat/weather/service/AirportCsvLoader.java:58-67 | every admitted airport is what some line of the file parses into |
| AirportCsvLoaders.AdmittedComplete | redhat-weather-service/src/main/java/com/redhat/weather/service/AirportCsvLoader.java:64-67 | every line that parses into an airport whose code the starting table lacks has its code admitted |
| AirportCsvLoaders.AdmittedAllValid | redhat-weather-service/src/main/java/com/redhat/weather/service/AirportCsvLoader.java:64-67 | with distinct codes all new to the table, every line that parses is admitted |
| AirportCsvLoaders.DistinctFileLoadsEveryAirport | redhat-weather-service/src/main/java/com/redhat/weather/service/AirportCsvLoader.java:33-102 | a load of a file whose codes are distinct and new to the table that does not throw returns the number CountValidAirports counts and adds that many rows, with or without dedupe |
| AirportCsvLoaders.RunSnoc | redhat-weather-service/src/main/java/com/redhat/weather/service/AirportCsvLoader.java:58 | reading one more line is one more step of the loop |
| AirportCsvLoaders.RunTwice | redhat-weather-service/src/main/java/com/redhat/weather/service/AirportCsvLoader.java:58 | the same line read twice is the same step taken twice |
| AirportCsvLoaders.RunStaysRejected | redhat-weather-service/src/main/java/com/redhat/weather/service/AirportCsvLoader.java:58-92 | once a batch is rejected no later line undoes it |
| AirportCsvLoaders.BatchDuplicateLoadedTwice | redhat-weather-service/src/main/java/com/redhat/weather/service/AirportCsvLoader.java:67-73 | two lines in one batch with the same new code are both loaded, as two rows with that code |
| AirportCsvLoaders.DeduplicatedLoadsOnce | redhat-weather-service/src/main/java/com/redhat/weather/service/AirportCsvLoader.java:67-73 | when the batch is checked too, the second line with that code is skipped and one row is loaded |
| AirportCsvLoaders.AirportCsvLoader.constructor | redhat-weather-service/src/main/java/com/redhat/weather/service/AirportCsvLoader.java:23-24 | the loader holds the injected locations repository |
| AirportCsvLoaders.AirportCsvLoader.PersistBatch | redhat-weather-service/src/main/java/com/redhat/weather/service/AirportCsvLoader.java:222-226 | each airport of the batch is persisted in turn; it succeeds exactly when the whole batch is accepted, and the table is then the rows inserted under consecutive ids |
| AirportCsvLoaders.AirportCsvLoader.ReadAll | redhat-weather-service/src/main/java/com/redhat/weather/service/AirportCsvLoader.java:57-87 | the read loop ends in the state the line-by-line steps give, with the batch objects holding the pending airports, unless a batch was rejected |
| AirportCsvLoaders.AirportCsvLoader.Import | redhat-weather-service/src/main/java/com/redhat/weather/service/AirportCsvLoader.java:57-92 | the read loop and the final persist leave the table, the identity counter and the count the line-by-line load gives, unless a batch was rejected |
| AirportCsvLoaders.AirportCsvLoader.LoadAirportsFromCsv | redhat-weather-service/src/main/java/com/redhat/weather/service/AirportCsvLoader.java:33-102 | returns 0 for a missing or empty file; otherwise the load, which throws and leaves the table untouched when a batch is rejected or the commit fails |
| AirportCsvLoaders.AirportCsvLoader.CountValidAirports | redhat-weather-service/src/main/java/com/redhat/weather/service/AirportCsvLoader.java:231-257 | the number of data lines that parse into an airport, 0 for a missing or empty file |
| WeatherDataSchedulers.FlagsOf | redhat-weather-service/src/main/java/com/redhat/weather/scheduler/WeatherDataScheduler.java:34-44 | a configured switch wins; otherwise NOAA, aviation and hurricane fetching are on and OpenWeatherMap is off |
| WeatherDataSchedulers.TallyOf | redhat-weather-service/src/main/java/com/redhat/weather/scheduler/WeatherDataScheduler.java:64-72 | every target adds one to exactly one counter, and the failures are the targets that threw |
| WeatherDataSchedulers.AppendedSplit | redhat-weather-service/src/main/java/com/redhat/weather/scheduler/WeatherDataScheduler.java:64-72 | a pass over two lists of targets is the pass over the first followed by the pass over the second |
| WeatherDataSchedulers.TallySplit | redhat-weather-service/src/main/java/com/redhat/weather/scheduler/WeatherDataScheduler.java:64-72 | the counters of a pass over two lists add up |
| WeatherDataSchedulers.ForecastOutcomeAppends | redhat-weather-service/src/main/java/com/redhat/weather/scheduler/WeatherDataScheduler.java:64-72 | a forecast fetch leaves the table followed by what it stored |
| WeatherDataSchedulers.ReportOutcomeAppends | redhat-weather-service/src/main/java/com/redhat/weather/scheduler/WeatherDataScheduler.java:134-143 | an airport fetch leaves the table followed by what it stored |
| WeatherDataSchedulers.FailureSkipped | redhat-weather-service/src/main/java/com/redhat/weather/scheduler/WeatherDataScheduler.java:64-72 | one target that throws does not stop the rest: it counts once as a failure and every other target adds what it would have added |
| WeatherDataSchedulers.NoaaFailureSkipped | redhat-weather-service/src/main/java/com/redhat/weather/scheduler/WeatherDataScheduler.java:64-72 | a location whose NOAA fetch fails counts as one failure, stores nothing and leaves the other locations' rows unchanged |
| WeatherDataSchedulers.MetarFailureSkipped | redhat-weather-service/src/main/java/com/redhat/weather/scheduler/WeatherDataScheduler.java:134-143 | an airport whose METAR fetch fails counts as one failure and stores nothing |
| WeatherDataSchedulers.MetarThenTaf | redhat-weather-service/src/main/java/com/redhat/weather/scheduler/WeatherDataScheduler.java:135-137 | a listed airport is asked for its METAR and then its TAF; a METAR call that throws leaves out the TAF request |
| WeatherDataSchedulers.TafFailureKeepsMetar | redhat-weather-service/src/main/java/com/redhat/weather/scheduler/WeatherDataScheduler.java:135-141 | an airport whose TAF call throws after its METAR committed counts as a failure, yet its METAR rows stay |
| WeatherDataSchedulers.SixHourMarks | redhat-weather-service/src/main/java/com/redhat/weather/scheduler/WeatherDataScheduler.java:166 | an hour of the day is divisible by six exactly at 00, 06, 12 and 18 |
| WeatherDataSchedulers.OffSeasonEverySixHours | redhat-weather-service/src/main/java/com/redhat/weather/scheduler/WeatherDataScheduler.java:162-169 | out of season the hourly tick fetches exactly at 00, 06, 12 and 18 o'clock |
| WeatherDataSchedulers.SeasonByDate | redhat-weather-service/src/main/java/com/redhat/weather/scheduler/WeatherDataScheduler.java:203-207 | on any valid calendar date the hurricane season is open exactly when the month is June through November |
| WeatherDataSchedulers.SeasonOpens2025 | redhat-weather-service/src/main/java/com/redhat/weather/scheduler/WeatherDataScheduler.java:203-207 | the 2025 season is closed at 2025-05-31T23:59:59 and open at 2025-06-01T00:00 |
| WeatherDataSchedulers.SeasonCloses2025 | redhat-weather-service/src/main/java/com/redhat/weather/scheduler/WeatherDataScheduler.java:203-207 | the 2025 season is open at 2025-11-30T23:59:59 and closed at 2025-12-01T00:00 |
| WeatherDataSchedulers.WeatherDataScheduler.constructor | redhat-weather-service/src/main/java/com/redhat/weather/scheduler/WeatherDataScheduler.java:20-44 | the scheduler holds the injected services and repository and the switches read from the configuration |
| WeatherDataSchedulers.WeatherDataScheduler.FetchNoaaForecasts | redhat-weather-service/src/main/java/com/redhat/weather/scheduler/WeatherDataScheduler.java:49-79 | when disabled nothing happens; otherwise every location is fetched in order, each failure counted and skipped, and the table gains exactly the rows of each fetch in location order |
| WeatherDataSchedulers.WeatherDataScheduler.FetchNoaa | redhat-weather-service/src/main/java/com/redhat/weather/scheduler/WeatherDataScheduler.java:65-71 | one location of the NOAA tick: its requests, whether it threw, and its rows appended |
| WeatherDataSchedulers.WeatherDataScheduler.FetchOpenWeatherForecasts | redhat-weather-service/src/main/java/com/redhat/weather/scheduler/WeatherDataScheduler.java:84-114 | when disabled nothing happens; otherwise the same pass with the OpenWeatherMap fetch |
| WeatherDataSchedulers.WeatherDataScheduler.FetchOpenWeather | redhat-weather-service/src/main/java/com/redhat/weather/scheduler/WeatherDataScheduler.java:100-106 | one location of the OpenWeatherMap tick: its requests, whether it threw, and its rows appended |
| WeatherDataSchedulers.WeatherDataScheduler.FoundById | redhat-weather-service/src/main/java/com/redhat/weather/scheduler/WeatherDataScheduler.java:66 | with unique ids, looking a listed location up by its id finds that location |
| WeatherDataSchedulers.WeatherDataScheduler.FetchAirportWeather | redhat-weather-service/src/main/java/com/redhat/weather/scheduler/WeatherDataScheduler.java:119-150 | when disabled nothing happens; otherwise every airport location in turn, METAR then TAF, counted once, and the table gains exactly their rows in order |
| WeatherDataSchedulers.WeatherDataScheduler.FetchEachAirport | redhat-weather-service/src/main/java/com/redhat/weather/scheduler/WeatherDataScheduler.java:129-143 | the loop over the airport locations: the tally, the requests and the appended rows equal the per-airport pass functions over the whole list |
| WeatherDataSchedulers.WeatherDataScheduler.FetchAirport | redhat-weather-service/src/main/java/com/redhat/weather/scheduler/WeatherDataScheduler.java:135-142 | one airport of the aviation tick: METAR, then TAF unless the METAR call threw; its requests, whether it failed, and its rows appended |
| WeatherDataSchedulers.WeatherDataScheduler.FetchHurricanes | redhat-weather-service/src/main/java/com/redhat/weather/scheduler/WeatherDataScheduler.java:155-180 | runs exactly when enabled and in season or at a six-hour mark; it then sends the NHC request and leaves the table as the storm fetch's outcome |
| WeatherDataSchedulers.WeatherDataScheduler.CleanupOldData | redhat-weather-service/src/main/java/com/redhat/weather/scheduler/WeatherDataScheduler.java:185-201 | one cutoff seven days before now; forecasts, reports and advisories are retired in that order, and the first transaction that throws leaves the later tables as they were; a completed sweep leaves nothing stale |
| Clock.HourOf | redhat-weather-service/src/main/java/com/redhat/weather/scheduler/WeatherDataScheduler.java:164 | getHour lies in 0..23 and is the hour of the day the date-time falls in |
| Clock.Plus | redhat-weather-service/src/main/java/com/redhat/weather/service/WeatherForecastService.java:188 | a date-time moved by some seconds exists exactly when the result lies in the LocalDateTime range, and is then the sum |
| Clock.PlusHours | redhat-weather-service/src/main/java/com/redhat/weather/service/WeatherForecastService.java:188 | plusHours, when it does not throw, moves the date-time by exactly that many hours |
| Clock.MinusDays | redhat-weather-service/src/main/java/com/redhat/weather/scheduler/WeatherDataScheduler.java:190 | minusDays, when it does not throw, moves the date-time back by exactly that many days |
| Clock.OfEpochSecond | redhat-weather-service/src/main/java/com/redhat/weather/service/WeatherForecastService.java:184-186 | ofEpochSecond at UTC succeeds exactly when the seconds lie in the LocalDateTime range |
| Clock.ParseIso8601 | redhat-weather-service/src/main/java/com/redhat/weather/service/WeatherForecastService.java:248-254 | the parsed date-time, or now when the text does not parse |
| Clock.YearLength | redhat-weather-service/src/main/java/com/redhat/weather/scheduler/WeatherDataScheduler.java:204 | consecutive proleptic Gregorian years are 366 days apart exactly when the later one is a leap year (divisible by 4, and by 400 when divisible by 100), 365 otherwise |
| Clock.CivilFromDaysValid | redhat-weather-service/src/main/java/com/redhat/weather/scheduler/WeatherDataScheduler.java:204 | every epoch day is a valid calendar date: month 1..12 and a day within that month of that year |
| Clock.CivilRoundTrip | redhat-weather-service/src/main/java/com/redhat/weather/scheduler/WeatherDataScheduler.java:204 | a valid calendar date taken to its epoch day and back is the same date, so distinct dates have distinct days |
| Clock.DaysRoundTrip | redhat-weather-service/src/main/java/com/redhat/weather/scheduler/WeatherDataScheduler.java:204 | an epoch day taken to its calendar date and back is the same day, so every day has exactly one date |
| Clock.MonthOf | redhat-weather-service/src/main/java/com/redhat/weather/scheduler/WeatherDataScheduler.java:204 | getMonthValue lies in 1..12 |
| Clock.MonthOfDate | redhat-weather-service/src/main/java/com/redhat/weather/scheduler/WeatherDataScheduler.java:204 | getMonthValue of any instant on a valid calendar date is that date's month |
| Clock.YearOfDate | redhat-weather-service/src/main/java/com/redhat/weather/service/HurricaneService.java:72 | getYear of any instant on a valid calendar date is that date's year |
| Clock.UnixEpochIsJanuaryFirst1970 | redhat-weather-service/src/main/java/com/redhat/weather/scheduler/WeatherDataScheduler.java:204 | epoch day 0 is 1970-01-01 |
| Clock.JuneFirst2024 | redhat-weather-service/src/main/java/com/redhat/weather/scheduler/WeatherDataScheduler.java:204 | epoch day 19875 is 2024-06-01 |
| Clock.LeapDay2000 | redhat-weather-service/src/main/java/com/redhat/weather/scheduler/WeatherDataScheduler.java:204 | epoch day 11016 is 2000-02-29, the leap day of a year divisible by 400 |
| Decimals.Add | redhat-weather-service/src/main/java/com/redhat/weather/domain/repository/LocationRepository.java:51 | BigDecimal.add answers at the larger of the two scales |
| Decimals.AddValue | redhat-weather-service/src/main/java/com/redhat/weather/domain/repository/LocationRepository.java:51 | BigDecimal.add is exact: the value of the sum is the sum of the values |
| Decimals.Subtract | redhat-weather-service/src/main/java/com/redhat/weather/service/WeatherForecastService.java:210 | BigDecimal.subtract answers at the larger of the two scales |
| Decimals.SubtractValue | redhat-weather-service/src/main/java/com/redhat/weather/service/WeatherForecastService.java:210 | BigDecimal.subtract is exact: the value of the difference is the difference of the values |
| Decimals.RescaledValue | redhat-weather-service/src/main/java/com/redhat/weather/service/WeatherForecastService.java:210 | rewriting a decimal at a larger scale, as add and subtract do, keeps its value |
| Decimals.RoundHalfUp | redhat-weather-service/src/main/java/com/redhat/weather/service/WeatherForecastService.java:212 | divide with RoundingMode.HALF_UP gives the nearest integer, ties away from zero |
| Decimals.MathRound | redhat-weather-service/src/main/java/com/redhat/weather/service/HurricaneService.java:133 | Math.round gives the nearest integer, ties towards positive infinity |
| Decimals.ToInt32 | redhat-weather-service/src/main/java/com/redhat/weather/service/HurricaneService.java:133 | an (int) cast keeps the value when it fits in 32 bits and always lands in the int range |
| Decimals.ParseInt | redhat-weather-service/src/main/java/com/redhat/weather/service/HurricaneService.java:69-71 | Integer.parseInt only ever gives a value in the int range |
| Decimals.ParseIntOfDigits | redhat-weather-service/src/main/java/com/redhat/weather/service/HurricaneService.java:69-71 | Integer.parseInt reads the decimal digits of n, with or without a minus sign, back as n or -n exactly when that fits in an int, and fails otherwise |
| Decimals.NatDigitsValue | redhat-weather-service/src/main/java/com/redhat/weather/service/WeatherForecastService.java:219 | the decimal digits of n spell n |
| Decimals.DigitsValueAppend | redhat-weather-service/src/main/java/com/redhat/weather/service/WeatherForecastService.java:219 | the digits a followed by b spell a's value shifted by \|b\| places plus b's value |
| Decimals.ParseSigned | redhat-weather-service/src/main/java/com/redhat/weather/service/AirportCsvLoader.java:136-137 | new BigDecimal on an optional minus sign and an unsigned literal gives the literal's magnitude with that sign and its scale |
| Decimals.ParseNegative | redhat-weather-service/src/main/java/com/redhat/weather/service/AirportCsvLoader.java:136-137 | a leading minus negates whatever the unsigned part parses to, and fails when it fails |
| Decimals.ParsePlainString | redhat-weather-service/src/main/java/com/redhat/weather/service/WeatherForecastService.java:219 | new BigDecimal(toPlainString(d)) gives d back, scale included, for every scale up to 2147483647; a longer fraction is refused, as its scale would leave the int range |
| Decimals.ParsedInIntRange | redhat-weather-service/src/main/java/com/redhat/weather/service/AirportCsvLoader.java:136-137 | new BigDecimal(String) only ever yields an exponent and a scale in the int range |
| Decimals.ScaledNoExponent | redhat-weather-service/src/main/java/com/redhat/weather/service/AirportCsvLoader.java:136-137 | without an exponent part the scale is the number of fraction digits, and the literal is refused when that exceeds 2147483647 |
| Decimals.ParseUnsignedPoint | redhat-weather-service/src/main/java/com/redhat/weather/service/AirportCsvLoader.java:136-137 | digits, a point, fraction digits and an exponent part parse as all the digits scaled by the fraction count and the exponent |
| Decimals.ParseSignedRefused | redhat-weather-service/src/main/java/com/redhat/weather/service/AirportCsvLoader.java:136-137 | a sign in front of a refused unsigned literal leaves it refused |
| Decimals.MinInt32LeadingDigits | redhat-weather-service/src/main/java/com/redhat/weather/service/AirportCsvLoader.java:136-137 | the digits 21474 spell 21474 |
| Decimals.ParseExponentOfDigits | redhat-weather-service/src/main/java/com/redhat/weather/service/AirportCsvLoader.java:136-137 | an exponent E n or E -n reads back as n or -n exactly when that fits in an int, and is refused otherwise |
| Decimals.ScaledExponent | redhat-weather-service/src/main/java/com/redhat/weather/service/AirportCsvLoader.java:136-137 | a whole number with exponent E n or E -n gets scale -n or n exactly when n is at most 2147483647, and is refused otherwise |
| Decimals.ParseUnsignedNoPoint | redhat-weather-service/src/main/java/com/redhat/weather/service/AirportCsvLoader.java:136-137 | a run of digits not followed by a point parses as those digits scaled by whatever exponent part follows |
| Decimals.ParseUnsignedFraction | redhat-weather-service/src/main/java/com/redhat/weather/service/AirportCsvLoader.java:136-137 | digits, a point and more digits parse to the value of all the digits at the scale of the fraction when that scale fits in an int, and are refused otherwise |
| Decimals.ParsePointInside | redhat-weather-service/src/main/java/com/redhat/weather/service/AirportCsvLoader.java:136-137 | a point strictly inside a digit run: the two runs parse as one number at the scale of the fraction, when that fits in an int |
| Decimals.ParseUnsignedDecimal | redhat-weather-service/src/main/java/com/redhat/weather/service/AirportCsvLoader.java:136-137 | a literal starting with a digit parses as its unsigned part, with a positive sign |
| Decimals.ParseScientific | redhat-weather-service/src/main/java/com/redhat/weather/service/AirportCsvLoader.java:136-137 | digits, E, an optional minus and exponent digits n parse to those digits at scale -n or n exactly when n is at most 2147483647, and are refused otherwise |
| Decimals.MinInt32Digits | redhat-weather-service/src/main/java/com/redhat/weather/service/AirportCsvLoader.java:136-137 | the digits 2147483648 spell the magnitude of the smallest int |
| Decimals.ScientificOutOfRange | redhat-weather-service/src/main/java/com/redhat/weather/service/AirportCsvLoader.java:136-137 | 1E2147483648 (exponent overflow) and 1E-2147483648 (scale out of range) are refused, so such a CSV field or wind speed reads as no number |
| Decimals.PlainStringHasNoSpace | redhat-weather-service/src/main/java/com/redhat/weather/service/WeatherForecastService.java:218 | the plain rendering is non-empty and holds no space, so split(" ") leaves it whole |
| Feeds.DecimalOfDouble | redhat-weather-service/src/main/java/com/redhat/weather/service/AirportWeatherService.java:112 | BigDecimal.valueOf(double) throws exactly for NaN and the infinities |
| Ordering.KeyLeTotal | redhat-weather-service/src/main/java/com/redhat/weather/domain/repository/WeatherForecastRepository.java:15-17 | any two sort keys are ordered one way or the other |
| Ordering.KeyLeTransitive | redhat-weather-service/src/main/java/com/redhat/weather/domain/repository/WeatherForecastRepository.java:15-17 | the key order is transitive |
| Ordering.Filter | redhat-weather-service/src/main/java/com/redhat/weather/domain/repository/WeatherForecastRepository.java:15-17 | a WHERE clause keeps exactly the rows that satisfy it |
| Ordering.FilterMultiplicity | redhat-weather-service/src/main/java/com/redhat/weather/domain/repository/WeatherForecastRepository.java:15-17 | a WHERE clause keeps each row that satisfies it as often as the table holds it, and no other row |
| Ordering.Count | redhat-weather-service/src/main/java/com/redhat/weather/domain/repository/WeatherForecastRepository.java:65-68 | the number of rows a statement affects is at most the table size |
| Ordering.FilterCount | redhat-weather-service/src/main/java/com/redhat/weather/domain/repository/WeatherForecastRepository.java:70-73 | the rows a WHERE keeps are as many as the rows it counts |
| Ordering.CountZero | redhat-weather-service/src/main/java/com/redhat/weather/domain/repository/WeatherForecastRepository.java:65-68 | no row matches exactly when the count is zero |
| Ordering.Insert | redhat-weather-service/src/main/java/com/redhat/weather/domain/repository/WeatherForecastRepository.java:15-17 | inserting a row into a sorted result keeps it sorted and adds exactly that row |
| Ordering.SortBy | redhat-weather-service/src/main/java/com/redhat/weather/domain/repository/WeatherForecastRepository.java:15-17 | ORDER BY gives a permutation of its input sorted by the key |
| Ordering.Query | redhat-weather-service/src/main/java/com/redhat/weather/domain/repository/WeatherForecastRepository.java:15-17 | WHERE p ORDER BY key gives exactly the rows satisfying p, each as often as in the table, sorted by the key |
| Ordering.First | redhat-weather-service/src/main/java/com/redhat/weather/domain/repository/HurricaneRepository.java:25-28 | firstResultOptional is empty exactly for an empty result and otherwise its first row |
| Ordering.FirstIsLeast | redhat-weather-service/src/main/java/com/redhat/weather/domain/repository/HurricaneRepository.java:25-28 | the first row of a sorted result has the least key of all its rows |
| Ordering.KeyLeSingle | redhat-weather-service/src/main/java/com/redhat/weather/domain/repository/WeatherForecastRepository.java:15-17 | a one-column key orders by that column |
| Ordering.KeyLeCons | redhat-weather-service/src/main/java/com/redhat/weather/domain/repository/HurricaneRepository.java:42-44 | a key of several columns orders by the first and breaks ties by the rest |
| Persistence.InsertAll | redhat-weather-service/src/main/java/com/redhat/weather/service/WeatherForecastService.java:122 | persist(list) stores all or nothing: rows exactly when every entity is accepted, one per entity and in order |
| Persistence.InsertAllAppend | redhat-weather-service/src/main/java/com/redhat/weather/service/WeatherForecastService.java:122 | storing one more accepted entity extends the stored rows by its row |
| Persistence.Converted | redhat-weather-service/src/main/java/com/redhat/weather/service/HurricaneService.java:61-113 | skipping the elements whose conversion throws never gives more results than elements |
| Persistence.ConvertedKeepsAccepted | redhat-weather-service/src/main/java/com/redhat/weather/service/HurricaneService.java:61-113 | every result comes from some element, every accepted element's result is kept, and when all are accepted there is one result each |
| Persistence.ConvertedRejected | redhat-weather-service/src/main/java/com/redhat/weather/service/HurricaneService.java:115-116 | one converted element the database rejects makes the whole persist(list) fail |
| Retention.Deactivated | redhat-weather-service/src/main/java/com/redhat/weather/domain/repository/WeatherForecastRepository.java:65-68 | an UPDATE ... WHERE replaces every stale row by its retired form, in place, and leaves the others |
| Retention.DeactivatedIdempotent | redhat-weather-service/src/main/java/com/redhat/weather/domain/repository/WeatherForecastRepository.java:65-68 | when retiring a row makes it no longer stale, a second UPDATE finds nothing and changes nothing |
| Retention.FilterComplement | redhat-weather-service/src/main/java/com/redhat/weather/domain/repository/WeatherForecastRepository.java:70-73 | a DELETE keeps every row that is not old and counts those that are: together they are the table |
| Retention.NothingOldRemains | redhat-weather-service/src/main/java/com/redhat/weather/domain/repository/WeatherForecastRepository.java:70-73 | after the DELETE no old row remains |
| Text.TrimShape | redhat-weather-service/src/main/java/com/redhat/weather/service/AirportCsvLoader.java:169 | String.trim leaves neither end a character at or below U+0020 |
| Text.TrimmedIsFixed | redhat-weather-service/src/main/java/com/redhat/weather/service/AirportCsvLoader.java:144 | trimming a string without blank ends changes nothing |
| Text.TrimIdempotent | redhat-weather-service/src/main/java/com/redhat/weather/service/AirportCsvLoader.java:144 | trimming twice is trimming once |
| Text.TrimKeepsChars | redhat-weather-service/src/main/java/com/redhat/weather/service/AirportCsvLoader.java:169 | trimming adds no character |
| Text.ToUpper | redhat-weather-service/src/main/java/com/redhat/weather/service/WeatherForecastService.java:227 | toUpperCase keeps the length and maps each character |
| Text.ToLower | redhat-weather-service/src/main/java/com/redhat/weather/domain/repository/LocationRepository.java:57-59 | LOWER keeps the length and maps each character |
| Text.UpperOfLower | redhat-weather-service/src/main/java/com/redhat/weather/service/WeatherForecastService.java:227 | upper-casing a lower-cased text is upper-casing the text |
| Text.ToLowerConcat | redhat-weather-service/src/main/java/com/redhat/weather/domain/repository/LocationRepository.java:57-59 | LOWER of a concatenation is the concatenation of the LOWERs |
| Text.Pieces | redhat-weather-service/src/main/java/com/redhat/weather/service/AirportCsvLoader.java:211 | a text splits into exactly one piece more than it has separators, no piece holds a separator, and a text without one is its only piece |
| Text.DropTrailingEmpty | redhat-weather-service/src/main/java/com/redhat/weather/service/AirportCsvLoader.java:211 | split drops exactly the trailing empty pieces |
| Text.Split | redhat-weather-service/src/main/java/com/redhat/weather/service/AirportCsvLoader.java:211 | a text without the separator splits into itself |
| Text.SplitPair | redhat-weather-service/src/main/java/com/redhat/weather/service/AirportCsvLoader.java:211-213 | "US-CA" splits into "US" and "CA" |
| Text.SplitTrailing | redhat-weather-service/src/main/java/com/redhat/weather/service/AirportCsvLoader.java:211-216 | "US-" splits into "US" alone |
| Text.SplitFirst | redhat-weather-service/src/main/java/com/redhat/weather/service/WeatherForecastService.java:218-219 | the first piece of a split is what comes before the first separator |
| Text.ToLowerKeepsLiteral | redhat-weather-service/src/main/java/com/redhat/weather/domain/repository/LocationRepository.java:57-59 | lower-casing neither makes nor removes a LIKE wildcard |
| Text.LikeAnything | redhat-weather-service/src/main/java/com/redhat/weather/domain/repository/LocationRepository.java:57-59 | "%" matches every text |
| Text.LikeLiteralThenAny | redhat-weather-service/src/main/java/com/redhat/weather/domain/repository/LocationRepository.java:57-59 | a literal followed by "%" matches exactly the texts that start with it |
| Text.LikeSubstring | redhat-weather-service/src/main/java/com/redhat/weather/domain/repository/LocationRepository.java:57-59 | "%" + q + "%" matches exactly the texts containing q, for a q without wildcards |
| LocationEntities.LocationEntity.Load | redhat-weather-service/src/main/java/com/redhat/weather/domain/entity/LocationEntity.java:17-52 | the managed entity for a loaded row holds exactly that row's fields |
| LocationRepositories.IndexOfId | redhat-weather-service/src/main/java/com/redhat/weather/domain/repository/LocationRepository.java:18-20 | the position of the row with the id, or none exactly when no row has it |
| LocationRepositories.WithAirportCode | redhat-weather-service/src/main/java/com/redhat/weather/domain/repository/LocationRepository.java:30-32 | a row with the airport code, or none exactly when no row has it |
| LocationRepositories.Without | redhat-weather-service/src/main/java/com/redhat/weather/service/LocationService.java:65-68 | deleting row k keeps every other row, in order |
| LocationRepositories.LocationRepository.constructor | redhat-weather-service/src/main/java/com/redhat/weather/domain/repository/LocationRepository.java:12 | a repository over a table with unique ids below the next identity value is valid |
| LocationServices.LocationService.constructor | redhat-weather-service/src/main/java/com/redhat/weather/service/LocationService.java:15-16 | the service holds the injected repository |
| WeatherForecastEntities.WeatherForecastEntity.Of | redhat-weather-service/src/main/java/com/redhat/weather/domain/entity/WeatherForecastEntity.java:18-86 | an entity whose fields hold the given values |
| WeatherForecastRepositories.WeatherForecastRepository.constructor | redhat-weather-service/src/main/java/com/redhat/weather/domain/repository/WeatherForecastRepository.java:13 | the repository starts with the given rows |
| Decimals.ParsePointString | redhat-weather-service/src/main/java/com/redhat/weather/service/WeatherForecastService.java:219 | digits with a point after the first k of them parse to the value of all the digits at the scale of the fraction when that scale fits in an int, and are refused otherwise |
| AirportCsvLoaders.ScanJoin | redhat-weather-service/src/main/java/com/redhat/weather/service/AirportCsvLoader.java:163-174 | scanning plain fields joined by commas closes all but the last, which it is still building, outside quotes |

## Left out

- HTTP resources (LocationResource, WeatherForecastResource, HurricaneResource, AirportWeatherResource, DataStatusResource), the DataLoadingHealthCheck, the AirportDataInitializer startup gate and the dashboard front end: request/response mapping and framework wiring with no ingestion logic.
- REST client interfaces: remote I/O, modelled only as the functions of `Feeds.Upstream`. AviationWeatherClient declares five-argument methods returning `String`, while AirportWeatherService calls two-argument methods returning lists of `MetarResponse`/`TafResponse`; the model follows the service's use and gives those responses the optional fields the service reads.
- XML aviation parsing: the code has none (only the JSON responses above are read), so none is modelled.
- Jackson parsing (`readTree`, `path`, `asText`, `asInt`, `asDouble`): payloads arrive already parsed as datatypes of optional fields; the defaults of a missing node (`""`, `0`, `0.0`, not an array) are kept where the code relies on them.
- ISO-8601 parsing with `ISO_DATE_TIME`: the parameter `parse`, a partial function; `Clock.ParseIso8601` adds the fallback to now.
- `LocalDateTime.now()`: a parameter. One value is used per service call and per scheduler tick, where the Java code reads the clock again for each row, location or step.
- Sub-second time: `LocalDateTime.now()` carries fractions of a second and the timestamp columns keep microseconds, while the model counts whole seconds. Two instants within the same second compare equal in the model, so a row stamped 0.3 s into the second in which a cutoff is taken at 0.7 s is stale in Java and not in the model.
- Doubles: `Math.round(knots * 1.15078)` is exact rational rounding; `findNearby`'s double radius and the JSON doubles become exact decimals (`BigDecimal.valueOf` of a NaN or infinity throws, and that case is kept).
- KnotsToMphRounds: stated for speeds up to 10^9 knots only; above that the 32-bit cast wraps, which `Decimals.ToInt32` models but no lemma describes.
- Column precision and scale of the numeric columns and foreign keys: the database's checks beyond NOT NULL and varchar length are not modelled.
- Text.UpperChar: `toUpperCase` is modelled one character at a time as ASCII plus the two non-ASCII letters that map one-to-one onto an ASCII capital, the long s (U+017F to S) and the dotless i (U+0131 to I). Java's full case mappings that change the length are not modelled: `ß` becomes `SS` and U+FB06 becomes `ST`, so Java reads the wind direction `ßE` as 157 degrees and `ßW` as 202, where the model answers none. Other non-ASCII case mappings are not modelled either.
- `toUpperCase()` uses the JVM's default locale (a Turkish or Azeri locale maps `i` to U+0130). The model fixes a locale-neutral mapping, because the locale is configuration outside the program.
- Text.ToLower: SQL `LOWER` is modelled on the ASCII letters only. LIKE escape characters are not modelled.
- Decimals.IsDigit: `Integer.parseInt` and `new BigDecimal(String)` accept any Unicode decimal digit (Arabic-Indic, Devanagari, fullwidth and others). The model accepts only `0`..`9`, so it rejects strings Java would parse.
- File I/O in AirportCsvLoader: the file is an optional sequence of lines (absent when it does not exist); an IOException while reading is not modelled.
- Logging, the Panache/JPQL engine and Hibernate's flush ordering.
- Identity values: a new location the database refuses still uses up its IDENTITY value, because PostgreSQL draws it before checking the row. Hibernate can instead refuse a null NOT NULL field itself, before any INSERT, when its nullability check is switched on; that setting is configuration outside the program, and the model treats such a refusal like the database's.
- `@Transactional`: reduced to "a rejected insert rolls the invocation back" plus the `commitFails` oracle for commit failures; no other exception is modelled as propagating, and the id sequence is not rolled back.
- AirportCsvLoaders.AirportCsvLoader.LoadAirportsFromCsv: when a batch persist fails the Java loop catches the exception, keeps going with the same batch and finally rethrows from the last persist; the model ends the load at the first failure with the same outcome (an exception and a rolled-back table).
- `@Scheduled` cron triggers and overlapping ticks: one tick is one method call.
- WeatherDataSchedulers.WeatherDataScheduler: its tick methods require that the services read the scheduler's location table and that location ids are unique, which the primary key guarantees in the running system.
- WeatherForecastServices.WeatherForecastService.BuildOpenWeatherEntities: the items are converted before the entities are allocated, so the order of allocations differs from the Java loop; the stored rows are the same.
- Entities are filled by one `Of` constructor from a snapshot rather than by a sequence of setter calls; the resulting object is the same.
- LocationServices.LocationService: the read methods (`getAllLocations`, `getLocationById`, `getLocationsByType`, `getAirportLocations`, `getLocationByAirportCode`, `searchLocationsByName`) delegate to the repository and are modelled by the repository's functions.

## Findings

| source | as written | input that shows it | evidently intended | confidence | as-written member | corrected member |
|---|---|---|---|---|---|---|
| redhat-weather-service/src/main/java/com/redhat/weather/service/AirportCsvLoader.java:67-73 | a row is skipped only when its airport code is already in the table; rows waiting in the unflushed batch are not consulted | a header line followed by the same valid airport line twice, with an ICAO code the table does not hold | each airport code is loaded at most once | medium, not executed | AirportCsvLoaders.BatchDuplicateLoadedTwice | AirportCsvLoaders.DeduplicatedLoadsOnce |

`AirportCsvLoaders.AirportCsvLoader.LoadAirportsFromCsv` follows the code as written. The
corrected behaviour is the same loop with the codes of the pending batch also consulted (`Step`
and `LoadFile` with `dedupe` set); `AirportCsvLoaders.LoadAddsOnlyNewAirports` proves that it
adds only airports whose code is new to the table and distinct from every other code it adds, and
`AirportCsvLoaders.LoadStoresAdmitted` with `AirportCsvLoaders.AdmittedComplete` that it stores
every airport whose code is new, the first time the code appears, in file order.
