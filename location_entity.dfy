/** The locations table: the entity object, its lifecycle hooks and its column constraints. */
module LocationEntities {
  import opened Wrappers
  import opened Decimals
  import opened Clock

  /** Every field of a LocationEntity; None is Java null. */
  datatype LocationFields = LocationFields(
    id: Option<int>,
    name: Option<string>,
    latitude: Option<Decimal>,
    longitude: Option<Decimal>,
    locationType: Option<string>,
    airportCode: Option<string>,
    state: Option<string>,
    country: Option<string>,
    metadata: Option<string>,
    createdAt: Option<DateTime>,
    updatedAt: Option<DateTime>)

  /** A stored locations row: the NOT NULL columns are plain values. */
  datatype LocationRow = LocationRow(
    id: int,
    name: string,
    latitude: Decimal,
    longitude: Decimal,
    locationType: string,
    airportCode: Option<string>,
    state: Option<string>,
    country: Option<string>,
    metadata: Option<string>,
    createdAt: DateTime,
    updatedAt: DateTime)

  const NameLength: nat := 255
  const TypeLength: nat := 50
  const CodeLength: nat := 10
  const RegionLength: nat := 100

  /** A new entity: every field null. */
  const NewLocation: LocationFields :=
    LocationFields(None, None, None, None, None, None, None, None, None, None, None)

  /** @PrePersist onCreate: createdAt and updatedAt both become now. */
  function Created(f: LocationFields, now: DateTime): (r: LocationFields)
    ensures r.createdAt == Some(now) && r.updatedAt == Some(now)
    ensures r.(createdAt := f.createdAt, updatedAt := f.updatedAt) == f
  {
    f.(createdAt := Some(now), updatedAt := Some(now))
  }

  /** @PreUpdate onUpdate: updatedAt becomes now; createdAt and the rest stay. */
  function Updated(f: LocationFields, now: DateTime): (r: LocationFields)
    ensures r.updatedAt == Some(now)
    ensures r.(updatedAt := f.updatedAt) == f
  {
    f.(updatedAt := Some(now))
  }

  predicate FitsIn(s: Option<string>, n: nat) {
    s.None? || |s.value| <= n
  }

  /** What the database accepts: the NOT NULL columns present and the varchar lengths respected. */
  predicate Insertable(f: LocationFields) {
    && f.name.Some? && f.latitude.Some? && f.longitude.Some? && f.locationType.Some?
    && f.createdAt.Some? && f.updatedAt.Some?
    && FitsIn(f.name, NameLength) && FitsIn(f.locationType, TypeLength)
    && FitsIn(f.airportCode, CodeLength) && FitsIn(f.state, RegionLength)
    && FitsIn(f.country, RegionLength)
  }

  /** The row stored under a generated id, or None where the database rejects the entity. */
  function ToRow(f: LocationFields, id: int): (r: Option<LocationRow>)
    ensures r.Some? <==> Insertable(f)
    ensures r.Some? ==> r.value.id == id
  {
    if !Insertable(f) then None
    else Some(LocationRow(
      id, f.name.value, f.latitude.value, f.longitude.value, f.locationType.value,
      f.airportCode, f.state, f.country, f.metadata, f.createdAt.value, f.updatedAt.value))
  }

  /** The entity a row loads into. */
  function FieldsOf(row: LocationRow): LocationFields {
    LocationFields(
      Some(row.id), Some(row.name), Some(row.latitude), Some(row.longitude),
      Some(row.locationType), row.airportCode, row.state, row.country, row.metadata,
      Some(row.createdAt), Some(row.updatedAt))
  }

  /** Storing loses nothing: the row loads back into the entity, now carrying its id. */
  lemma ToRowLoadsBack(f: LocationFields, id: int)
    requires Insertable(f)
    ensures FieldsOf(ToRow(f, id).value) == f.(id := Some(id))
  {
  }

  /** Two optional numbers are the same value, as the dirty check compares BigDecimal fields. */
  predicate SameNumber(a: Option<Decimal>, b: Option<Decimal>) {
    (a.None? && b.None?) || (a.Some? && b.Some? && ValueEq(a.value, b.value))
  }

  /** The dirty check at flush: does the entity differ from the state it was loaded with? */
  predicate Dirty(loaded: LocationFields, current: LocationFields) {
    || loaded.id != current.id || loaded.name != current.name
    || !SameNumber(loaded.latitude, current.latitude) || !SameNumber(loaded.longitude, current.longitude)
    || loaded.locationType != current.locationType || loaded.airportCode != current.airportCode
    || loaded.state != current.state || loaded.country != current.country
    || loaded.metadata != current.metadata || loaded.createdAt != current.createdAt
    || loaded.updatedAt != current.updatedAt
  }

  /** An entity is never dirty against its own state. */
  lemma NotDirtyAgainstItself(f: LocationFields)
    ensures !Dirty(f, f)
  {
  }

  /**
   * The field copy of updateLocation: name, coordinates, type, airport code, state, country and
   * metadata come from source; id and both timestamps stay those of current.
   */
  function Edit(current: LocationFields, source: LocationFields): (r: LocationFields)
    ensures r.name == source.name && r.latitude == source.latitude && r.longitude == source.longitude
    ensures r.locationType == source.locationType && r.airportCode == source.airportCode
    ensures r.state == source.state && r.country == source.country && r.metadata == source.metadata
    ensures r.id == current.id && r.createdAt == current.createdAt && r.updatedAt == current.updatedAt
  {
    current.(name := source.name, latitude := source.latitude, longitude := source.longitude,
             locationType := source.locationType, airportCode := source.airportCode,
             state := source.state, country := source.country, metadata := source.metadata)
  }

  /** Copying the same source twice is copying it once. */
  lemma EditIdempotent(current: LocationFields, source: LocationFields)
    ensures Edit(Edit(current, source), source) == Edit(current, source)
  {
  }

  /** The entity after flush: @PreUpdate runs only when the entity is dirty. */
  function Flushed(loaded: LocationFields, current: LocationFields, now: DateTime): (r: LocationFields)
    ensures Dirty(loaded, current) ==> r == Updated(current, now)
    ensures !Dirty(loaded, current) ==> r == current
  {
    if Dirty(loaded, current) then Updated(current, now) else current
  }

  /** The row an UPDATE of a stored row writes: created_at is not updatable, so it keeps the stored one. */
  function UpdatedRow(row: LocationRow, f: LocationFields): (r: Option<LocationRow>)
    ensures r.Some? <==> Insertable(f.(createdAt := Some(row.createdAt)))
    ensures r.Some? ==> r.value.id == row.id && r.value.createdAt == row.createdAt
  {
    ToRow(f.(createdAt := Some(row.createdAt)), row.id)
  }

  class LocationEntity {
    var id: Option<int>
    var name: Option<string>
    var latitude: Option<Decimal>
    var longitude: Option<Decimal>
    var locationType: Option<string>
    var airportCode: Option<string>
    var state: Option<string>
    var country: Option<string>
    var metadata: Option<string>
    var createdAt: Option<DateTime>
    var updatedAt: Option<DateTime>

    function Snapshot(): LocationFields
      reads this
    {
      LocationFields(
        id, name, latitude, longitude, locationType, airportCode, state, country, metadata,
        createdAt, updatedAt)
    }

    constructor()
      ensures Snapshot() == NewLocation
    {
      id, name, latitude, longitude, locationType := None, None, None, None, None;
      airportCode, state, country, metadata := None, None, None, None;
      createdAt, updatedAt := None, None;
    }

    /** The managed entity the persistence context materialises for a loaded row. */
    constructor Load(f: LocationFields)
      ensures Snapshot() == f
    {
      id, name, latitude, longitude, locationType := f.id, f.name, f.latitude, f.longitude, f.locationType;
      airportCode, state, country, metadata := f.airportCode, f.state, f.country, f.metadata;
      createdAt, updatedAt := f.createdAt, f.updatedAt;
    }

    /** @PrePersist. */
    method OnCreate(now: DateTime)
      modifies this
      ensures Snapshot() == Created(old(Snapshot()), now)
    {
      createdAt := Some(now);
      updatedAt := Some(now);
    }

    /** @PreUpdate. */
    method OnUpdate(now: DateTime)
      modifies this
      ensures Snapshot() == Updated(old(Snapshot()), now)
    {
      updatedAt := Some(now);
    }
  }
}
