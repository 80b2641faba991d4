/** The hurricanes table: the entity object, its @PrePersist hook and its column constraints. */
module HurricaneEntities {
  import opened Wrappers
  import opened Decimals
  import opened Clock

  /** Every field of a HurricaneEntity but the generated id; None is Java null. */
  datatype AdvisoryFields = AdvisoryFields(
    stormId: Option<string>,
    stormName: Option<string>,
    stormNumber: Option<int>,
    basin: Option<string>,
    year: Option<int>,
    advisoryTime: Option<DateTime>,
    forecastTime: Option<DateTime>,
    fetchedAt: Option<DateTime>,
    latitude: Option<Decimal>,
    longitude: Option<Decimal>,
    category: Option<int>,
    maxSustainedWindsMph: Option<int>,
    maxSustainedWindsKnots: Option<int>,
    minCentralPressureMb: Option<int>,
    movementDirection: Option<int>,
    movementSpeedMph: Option<Decimal>,
    movementSpeedKnots: Option<Decimal>,
    forecastData: Option<string>,
    status: Option<string>,
    classification: Option<string>,
    intensity: Option<string>,
    isActive: Option<bool>,
    createdAt: Option<DateTime>)

  /** A stored hurricanes row: the NOT NULL columns are plain values. */
  datatype AdvisoryRow = AdvisoryRow(
    stormId: string,
    stormName: Option<string>,
    stormNumber: Option<int>,
    basin: Option<string>,
    year: Option<int>,
    advisoryTime: DateTime,
    forecastTime: DateTime,
    fetchedAt: DateTime,
    latitude: Decimal,
    longitude: Decimal,
    category: Option<int>,
    maxSustainedWindsMph: Option<int>,
    maxSustainedWindsKnots: Option<int>,
    minCentralPressureMb: Option<int>,
    movementDirection: Option<int>,
    movementSpeedMph: Option<Decimal>,
    movementSpeedKnots: Option<Decimal>,
    forecastData: string,
    status: Option<string>,
    classification: Option<string>,
    intensity: Option<string>,
    isActive: Option<bool>,
    createdAt: DateTime)

  const StormIdLength: nat := 50
  const StormNameLength: nat := 100
  const BasinLength: nat := 10
  const LabelLength: nat := 50

  /** A new entity: every field null except isActive, which starts true. */
  const NewAdvisory: AdvisoryFields :=
    AdvisoryFields(None, None, None, None, None, None, None, None, None, None, None, None,
                   None, None, None, None, None, None, None, None, None, Some(true), None)

  /** @PrePersist onCreate: createdAt becomes now; fetchedAt becomes now only when it is null. */
  function Created(f: AdvisoryFields, now: DateTime): (r: AdvisoryFields)
    ensures r.createdAt == Some(now)
    ensures f.fetchedAt.Some? ==> r.fetchedAt == f.fetchedAt
    ensures f.fetchedAt.None? ==> r.fetchedAt == Some(now)
    ensures r.(createdAt := f.createdAt, fetchedAt := f.fetchedAt) == f
  {
    f.(createdAt := Some(now), fetchedAt := if f.fetchedAt.None? then Some(now) else f.fetchedAt)
  }

  predicate FitsIn(s: Option<string>, n: nat) {
    s.None? || |s.value| <= n
  }

  /** What the database accepts: the NOT NULL columns present and the varchar lengths respected. */
  predicate Insertable(f: AdvisoryFields) {
    && f.stormId.Some? && f.advisoryTime.Some? && f.forecastTime.Some? && f.fetchedAt.Some?
    && f.latitude.Some? && f.longitude.Some? && f.forecastData.Some? && f.createdAt.Some?
    && FitsIn(f.stormId, StormIdLength) && FitsIn(f.stormName, StormNameLength)
    && FitsIn(f.basin, BasinLength) && FitsIn(f.status, LabelLength)
    && FitsIn(f.classification, LabelLength) && FitsIn(f.intensity, LabelLength)
  }

  /** The row an INSERT of the entity stores, or None where the database rejects it. */
  function ToRow(f: AdvisoryFields): (r: Option<AdvisoryRow>)
    ensures r.Some? <==> Insertable(f)
  {
    if !Insertable(f) then None
    else Some(AdvisoryRow(
      f.stormId.value, f.stormName, f.stormNumber, f.basin, f.year, f.advisoryTime.value,
      f.forecastTime.value, f.fetchedAt.value, f.latitude.value, f.longitude.value, f.category,
      f.maxSustainedWindsMph, f.maxSustainedWindsKnots, f.minCentralPressureMb,
      f.movementDirection, f.movementSpeedMph, f.movementSpeedKnots, f.forecastData.value,
      f.status, f.classification, f.intensity, f.isActive, f.createdAt.value))
  }

  /** The entity a row loads into. */
  function FieldsOf(row: AdvisoryRow): AdvisoryFields {
    AdvisoryFields(
      Some(row.stormId), row.stormName, row.stormNumber, row.basin, row.year,
      Some(row.advisoryTime), Some(row.forecastTime), Some(row.fetchedAt), Some(row.latitude),
      Some(row.longitude), row.category, row.maxSustainedWindsMph, row.maxSustainedWindsKnots,
      row.minCentralPressureMb, row.movementDirection, row.movementSpeedMph,
      row.movementSpeedKnots, Some(row.forecastData), row.status, row.classification,
      row.intensity, row.isActive, Some(row.createdAt))
  }

  /** Storing loses nothing: the row loads back into the very entity that was inserted. */
  lemma ToRowLoadsBack(f: AdvisoryFields)
    requires Insertable(f)
    ensures FieldsOf(ToRow(f).value) == f
  {
  }

  /** A persisted advisory keeps the fetchedAt it was given and is stamped with its creation time. */
  lemma StoredStamps(f: AdvisoryFields, now: DateTime)
    requires Insertable(Created(f, now))
    ensures ToRow(Created(f, now)).value.createdAt == now
    ensures ToRow(Created(f, now)).value.fetchedAt == f.fetchedAt.GetOr(now)
    ensures ToRow(Created(f, now)).value.isActive == f.isActive
  {
  }

  class HurricaneEntity {
    var stormId: Option<string>
    var stormName: Option<string>
    var stormNumber: Option<int>
    var basin: Option<string>
    var year: Option<int>
    var advisoryTime: Option<DateTime>
    var forecastTime: Option<DateTime>
    var fetchedAt: Option<DateTime>
    var latitude: Option<Decimal>
    var longitude: Option<Decimal>
    var category: Option<int>
    var maxSustainedWindsMph: Option<int>
    var maxSustainedWindsKnots: Option<int>
    var minCentralPressureMb: Option<int>
    var movementDirection: Option<int>
    var movementSpeedMph: Option<Decimal>
    var movementSpeedKnots: Option<Decimal>
    var forecastData: Option<string>
    var status: Option<string>
    var classification: Option<string>
    var intensity: Option<string>
    var isActive: Option<bool>
    var createdAt: Option<DateTime>

    function Snapshot(): AdvisoryFields
      reads this
    {
      AdvisoryFields(
        stormId, stormName, stormNumber, basin, year, advisoryTime, forecastTime, fetchedAt,
        latitude, longitude, category, maxSustainedWindsMph, maxSustainedWindsKnots,
        minCentralPressureMb, movementDirection, movementSpeedMph, movementSpeedKnots,
        forecastData, status, classification, intensity, isActive, createdAt)
    }

    constructor()
      ensures Snapshot() == NewAdvisory
    {
      stormId, stormName, stormNumber, basin, year := None, None, None, None, None;
      advisoryTime, forecastTime, fetchedAt, latitude, longitude := None, None, None, None, None;
      category, maxSustainedWindsMph, maxSustainedWindsKnots := None, None, None;
      minCentralPressureMb, movementDirection := None, None;
      movementSpeedMph, movementSpeedKnots, forecastData := None, None, None;
      status, classification, intensity := None, None, None;
      isActive, createdAt := Some(true), None;
    }

    /** An entity whose fields hold f. */
    constructor Of(f: AdvisoryFields)
      ensures Snapshot() == f
    {
      stormId, stormName, stormNumber, basin, year := f.stormId, f.stormName, f.stormNumber, f.basin, f.year;
      advisoryTime, forecastTime, fetchedAt := f.advisoryTime, f.forecastTime, f.fetchedAt;
      latitude, longitude, category := f.latitude, f.longitude, f.category;
      maxSustainedWindsMph, maxSustainedWindsKnots := f.maxSustainedWindsMph, f.maxSustainedWindsKnots;
      minCentralPressureMb, movementDirection := f.minCentralPressureMb, f.movementDirection;
      movementSpeedMph, movementSpeedKnots, forecastData := f.movementSpeedMph, f.movementSpeedKnots, f.forecastData;
      status, classification, intensity := f.status, f.classification, f.intensity;
      isActive, createdAt := f.isActive, f.createdAt;
    }

    /** @PrePersist. */
    method OnCreate(now: DateTime)
      modifies this
      ensures Snapshot() == Created(old(Snapshot()), now)
    {
      createdAt := Some(now);
      if fetchedAt.None? {
        fetchedAt := Some(now);
      }
    }
  }
}
