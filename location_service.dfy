/** Creating, updating and deleting locations, each in its own transaction. */
module LocationServices {
  import opened Wrappers
  import opened Clock
  import opened LocationEntities
  import opened LocationRepositories

  /** The entity updateLocation leaves behind for the stored row and the entity it was given. */
  function UpdateResult(row: LocationRow, source: LocationFields, now: DateTime): LocationFields {
    Flushed(FieldsOf(row), Edit(FieldsOf(row), source), now)
  }

  /**
   * updateLocation copies exactly the eight editable fields from its argument; id and createdAt
   * stay those of the stored row, and updatedAt moves to now exactly when something changed.
   */
  lemma UpdateCopiesEditableFields(row: LocationRow, source: LocationFields, now: DateTime)
    ensures var f := UpdateResult(row, source, now);
      && f.name == source.name && f.latitude == source.latitude && f.longitude == source.longitude
      && f.locationType == source.locationType && f.airportCode == source.airportCode
      && f.state == source.state && f.country == source.country && f.metadata == source.metadata
      && f.id == Some(row.id) && f.createdAt == Some(row.createdAt)
      && f.updatedAt == (if Dirty(FieldsOf(row), Edit(FieldsOf(row), source)) then Some(now) else Some(row.updatedAt))
  {
  }

  /** Updating a row with its own values is no change: no @PreUpdate, and the same row is written. */
  lemma UpdateWithSameValuesKeepsRow(row: LocationRow, now: DateTime)
    requires Insertable(FieldsOf(row))
    ensures UpdateResult(row, FieldsOf(row), now) == FieldsOf(row)
    ensures UpdatedRow(row, UpdateResult(row, FieldsOf(row), now)) == Some(row)
  {
    NotDirtyAgainstItself(FieldsOf(row));
    assert Edit(FieldsOf(row), FieldsOf(row)) == FieldsOf(row);
  }

  class LocationService {
    const repo: LocationRepository

    constructor(repo: LocationRepository)
      ensures this.repo == repo
    {
      this.repo := repo;
    }

    /**
     * createLocation: persists the entity and returns that same object; a rejected or detached
     * entity makes the call throw, and its transaction stores nothing.
     */
    method CreateLocation(location: LocationEntity, now: DateTime) returns (r: LocationEntity, threw: bool)
      requires repo.Valid()
      modifies repo, location
      ensures repo.Valid()
      ensures r == location
      ensures !threw <==> old(location.id).None? && Insertable(Created(old(location.Snapshot()), now))
      ensures !threw ==> r.id == Some(old(repo.nextId))
      ensures !threw ==> repo.rows == old(repo.rows) + [ToRow(Created(old(location.Snapshot()), now), old(repo.nextId)).value]
      ensures threw ==> repo.rows == old(repo.rows)
      ensures repo.nextId == if old(location.id).None? then old(repo.nextId) + 1 else old(repo.nextId)
    {
      var ok := repo.Persist(location, now);
      r, threw := location, !ok;
    }

    /**
     * updateLocation: loads the stored entity, copies the editable fields onto it and returns it;
     * the flush at commit writes it back. An unknown id returns null and changes nothing. A row
     * the database rejects makes the commit, and so the call, throw.
     */
    method UpdateLocation(id: int, updated: LocationEntity, now: DateTime) returns (r: LocationEntity?, threw: bool)
      requires repo.Valid()
      modifies repo
      ensures repo.Valid() && repo.nextId == old(repo.nextId)
      ensures IndexOfId(old(repo.rows), id).None? ==> r == null && !threw && repo.rows == old(repo.rows)
      ensures IndexOfId(old(repo.rows), id).Some? ==>
        var k := IndexOfId(old(repo.rows), id).value;
        var f := UpdateResult(old(repo.rows)[k], old(updated.Snapshot()), now);
        && r != null && fresh(r) && r.Snapshot() == f
        && (threw <==> UpdatedRow(old(repo.rows)[k], f).None?)
        && repo.rows == if threw then old(repo.rows) else old(repo.rows)[k := UpdatedRow(old(repo.rows)[k], f).value]
    {
      var k := IndexOfId(repo.rows, id);
      if k.None? {
        return null, false;
      }
      var existing := new LocationEntity.Load(FieldsOf(repo.rows[k.value]));
      existing.name := updated.name;
      existing.latitude := updated.latitude;
      existing.longitude := updated.longitude;
      existing.locationType := updated.locationType;
      existing.airportCode := updated.airportCode;
      existing.state := updated.state;
      existing.country := updated.country;
      existing.metadata := updated.metadata;
      assert existing.Snapshot() == Edit(FieldsOf(repo.rows[k.value]), updated.Snapshot());
      var ok := repo.Flush(k.value, existing, now);
      r, threw := existing, !ok;
    }

    /** deleteLocation: whether a row with that id was there and is now gone. */
    method DeleteLocation(id: int) returns (deleted: bool)
      requires repo.Valid()
      modifies repo
      ensures repo.Valid() && repo.nextId == old(repo.nextId)
      ensures deleted <==> IndexOfId(old(repo.rows), id).Some?
      ensures deleted ==> repo.rows == Without(old(repo.rows), IndexOfId(old(repo.rows), id).value)
      ensures !deleted ==> repo.rows == old(repo.rows)
      ensures forall i :: 0 <= i < |repo.rows| ==> repo.rows[i].id != id
    {
      deleted := repo.DeleteById(id);
    }
  }
}
