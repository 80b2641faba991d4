/** The locations table and the lookups over it. */
module LocationRepositories {
  import opened Wrappers
  import opened Decimals
  import opened Clock
  import opened Text
  import opened Ordering
  import opened LocationEntities

  predicate UniqueIds(rows: seq<LocationRow>) {
    forall i, j :: 0 <= i < j < |rows| ==> rows[i].id != rows[j].id
  }

  predicate IsAirport(row: LocationRow) {
    row.locationType == "airport" && row.airportCode.Some?
  }

  /** latitude BETWEEN lat - radius AND lat + radius, and likewise for the longitude. */
  predicate InBox(row: LocationRow, lat: Decimal, lon: Decimal, radius: Decimal) {
    && ValueLe(Subtract(lat, radius), row.latitude) && ValueLe(row.latitude, Add(lat, radius))
    && ValueLe(Subtract(lon, radius), row.longitude) && ValueLe(row.longitude, Add(lon, radius))
  }

  /** LOWER(name) LIKE LOWER('%' + text + '%'). */
  predicate NameMatches(row: LocationRow, text: string) {
    Like(ToLower("%" + text + "%"), ToLower(row.name))
  }

  /** For a search text without wildcards, the LIKE is a case-insensitive substring test. */
  lemma NameMatchesIsSubstring(row: LocationRow, text: string)
    requires IsLiteralPattern(text)
    ensures NameMatches(row, text) <==> Contains(ToLower(row.name), ToLower(text))
  {
    ToLowerConcat("%", text);
    ToLowerConcat("%" + text, "%");
    assert ToLower("%") == "%";
    ToLowerKeepsLiteral(text);
    LikeSubstring(ToLower(text), ToLower(row.name));
  }

  /** Where the row with that id sits, if there is one. */
  function IndexOfId(rows: seq<LocationRow>, id: int): (r: Option<nat>)
    ensures r.Some? ==> r.value < |rows| && rows[r.value].id == id
    ensures r.None? <==> forall i :: 0 <= i < |rows| ==> rows[i].id != id
  {
    if rows == [] then None
    else if rows[0].id == id then Some(0)
    else
      var rest := IndexOfId(rows[1..], id);
      assert forall i :: 1 <= i < |rows| ==> rows[i] == rows[1..][i - 1];
      if rest.None? then None else Some(rest.value + 1)
  }

  /** The first row with that airport code, if there is one. */
  function WithAirportCode(rows: seq<LocationRow>, code: string): (r: Option<LocationRow>)
    ensures r.Some? ==> r.value in rows && r.value.airportCode == Some(code)
    ensures r.None? <==> forall i :: 0 <= i < |rows| ==> rows[i].airportCode != Some(code)
  {
    var found := Filter(rows, (x: LocationRow) => x.airportCode == Some(code));
    CountZero(rows, (x: LocationRow) => x.airportCode == Some(code));
    FilterCount(rows, (x: LocationRow) => x.airportCode == Some(code));
    First(found)
  }

  /** The table without its k-th row. */
  function Without(rows: seq<LocationRow>, k: nat): (r: seq<LocationRow>)
    requires k < |rows|
    ensures |r| == |rows| - 1
    ensures forall i :: 0 <= i < |r| ==> r[i] == (if i < k then rows[i] else rows[i + 1])
  {
    rows[..k] + rows[k + 1..]
  }

  /** Removing the row with an id leaves no row with that id and keeps the ids unique. */
  lemma WithoutUnique(rows: seq<LocationRow>, k: nat)
    requires k < |rows| && UniqueIds(rows)
    ensures UniqueIds(Without(rows, k))
    ensures forall i :: 0 <= i < |rows| - 1 ==> Without(rows, k)[i].id != rows[k].id
  {
    var r := Without(rows, k);
    forall i, j | 0 <= i < j < |r| ensures r[i].id != r[j].id {
      var a := if i < k then i else i + 1;
      var b := if j < k then j else j + 1;
      assert r[i] == rows[a] && r[j] == rows[b] && a < b;
    }
  }

  class LocationRepository {
    var rows: seq<LocationRow>
    /** The next value of the IDENTITY column. */
    var nextId: int

    predicate Valid()
      reads this
    {
      UniqueIds(rows) && forall i :: 0 <= i < |rows| ==> rows[i].id < nextId
    }

    constructor(initial: seq<LocationRow>, next: int)
      requires UniqueIds(initial) && forall i :: 0 <= i < |initial| ==> initial[i].id < next
      ensures Valid() && rows == initial && nextId == next
    {
      rows, nextId := initial, next;
    }

    /**
     * persist(entity): an entity that already has an id is detached and persist throws before
     * anything happens; otherwise @PrePersist runs and the INSERT draws the next identity value,
     * which stays drawn even when the database then rejects the row.
     */
    method Persist(e: LocationEntity, now: DateTime) returns (ok: bool)
      requires Valid()
      modifies this, e
      ensures Valid()
      ensures ok <==> old(e.id).None? && Insertable(Created(old(e.Snapshot()), now))
      ensures old(e.id).Some? ==> e.Snapshot() == old(e.Snapshot())
      ensures old(e.id).None? && !ok ==> e.Snapshot() == Created(old(e.Snapshot()), now)
      ensures ok ==> e.Snapshot() == Created(old(e.Snapshot()), now).(id := Some(old(nextId)))
      ensures ok ==> rows == old(rows) + [ToRow(Created(old(e.Snapshot()), now), old(nextId)).value]
      ensures nextId == if old(e.id).None? then old(nextId) + 1 else old(nextId)
      ensures !ok ==> rows == old(rows)
    {
      if e.id.Some? {
        return false;
      }
      e.OnCreate(now);
      var row := ToRow(e.Snapshot(), nextId);
      ok := row.Some?;
      if ok {
        e.id := Some(nextId);
        rows := rows + [row.value];
      }
      nextId := nextId + 1;
    }

    /**
     * The flush of a managed entity loaded from row k at commit: @PreUpdate when it is dirty,
     * then the UPDATE, which the database may reject.
     */
    method Flush(k: nat, e: LocationEntity, now: DateTime) returns (ok: bool)
      requires Valid() && k < |rows|
      modifies this, e
      ensures Valid() && nextId == old(nextId)
      ensures e.Snapshot() == Flushed(FieldsOf(old(rows[k])), old(e.Snapshot()), now)
      ensures ok <==> UpdatedRow(old(rows[k]), e.Snapshot()).Some?
      ensures rows == if ok then old(rows)[k := UpdatedRow(old(rows[k]), e.Snapshot()).value] else old(rows)
    {
      if Dirty(FieldsOf(rows[k]), e.Snapshot()) {
        e.OnUpdate(now);
      }
      var row := UpdatedRow(rows[k], e.Snapshot());
      ok := row.Some?;
      if ok {
        rows := rows[k := row.value];
      }
    }

    /** deleteById: removes the row with that id and answers whether there was one. */
    method DeleteById(id: int) returns (deleted: bool)
      requires Valid()
      modifies this
      ensures Valid() && nextId == old(nextId)
      ensures deleted <==> IndexOfId(old(rows), id).Some?
      ensures deleted ==> rows == Without(old(rows), IndexOfId(old(rows), id).value)
      ensures !deleted ==> rows == old(rows)
      ensures forall i :: 0 <= i < |rows| ==> rows[i].id != id
    {
      var k := IndexOfId(rows, id);
      deleted := k.Some?;
      if deleted {
        WithoutUnique(rows, k.value);
        rows := Without(rows, k.value);
      }
    }

    /** getAllLocations. */
    function GetAllLocations(): (r: seq<LocationRow>)
      reads this
      ensures r == rows
    {
      rows
    }

    /** findByIdOptional: the row with that id, if there is one. */
    function FindByIdOptional(id: int): (r: Option<LocationRow>)
      reads this
      ensures r.Some? ==> r.value in rows && r.value.id == id
      ensures r.None? <==> forall i :: 0 <= i < |rows| ==> rows[i].id != id
    {
      var found := Filter(rows, (x: LocationRow) => x.id == id);
      CountZero(rows, (x: LocationRow) => x.id == id);
      FilterCount(rows, (x: LocationRow) => x.id == id);
      First(found)
    }

    /** findByType. */
    function FindByType(locationType: string): (r: seq<LocationRow>)
      reads this
      ensures forall x :: x in r <==> x in rows && x.locationType == locationType
      ensures forall x :: multiset(r)[x] == if x.locationType == locationType then multiset(rows)[x] else 0
    {
      var p := (x: LocationRow) => x.locationType == locationType;
      FilterMultiplicity(rows, p);
      Filter(rows, p)
    }

    /** findAirportLocations: type "airport" with an airport code. */
    function FindAirportLocations(): (r: seq<LocationRow>)
      reads this
      ensures forall x :: x in r <==> x in rows && IsAirport(x)
      ensures forall x :: multiset(r)[x] == if IsAirport(x) then multiset(rows)[x] else 0
    {
      FilterMultiplicity(rows, IsAirport);
      Filter(rows, IsAirport)
    }

    /** findByAirportCode: some location with that code, or none if no location has it. */
    function FindByAirportCode(code: string): (r: Option<LocationRow>)
      reads this
      ensures r.Some? ==> r.value in rows && r.value.airportCode == Some(code)
      ensures r.None? <==> forall i :: 0 <= i < |rows| ==> rows[i].airportCode != Some(code)
    {
      WithAirportCode(rows, code)
    }

    /** findByState. */
    function FindByState(state: string): (r: seq<LocationRow>)
      reads this
      ensures forall x :: x in r <==> x in rows && x.state == Some(state)
      ensures forall x :: multiset(r)[x] == if x.state == Some(state) then multiset(rows)[x] else 0
    {
      var p := (x: LocationRow) => x.state == Some(state);
      FilterMultiplicity(rows, p);
      Filter(rows, p)
    }

    /** findByCountry. */
    function FindByCountry(country: string): (r: seq<LocationRow>)
      reads this
      ensures forall x :: x in r <==> x in rows && x.country == Some(country)
      ensures forall x :: multiset(r)[x] == if x.country == Some(country) then multiset(rows)[x] else 0
    {
      var p := (x: LocationRow) => x.country == Some(country);
      FilterMultiplicity(rows, p);
      Filter(rows, p)
    }

    /** findByCoordinates: numeric equality of both coordinates. */
    function FindByCoordinates(lat: Decimal, lon: Decimal): (r: seq<LocationRow>)
      reads this
      ensures forall x :: x in r <==> x in rows && ValueEq(x.latitude, lat) && ValueEq(x.longitude, lon)
      ensures forall x :: multiset(r)[x] == if ValueEq(x.latitude, lat) && ValueEq(x.longitude, lon) then multiset(rows)[x] else 0
    {
      var p := (x: LocationRow) => ValueEq(x.latitude, lat) && ValueEq(x.longitude, lon);
      FilterMultiplicity(rows, p);
      Filter(rows, p)
    }

    /** findNearby: the inclusive bounding box of half-width radius around (lat, lon). */
    function FindNearby(lat: Decimal, lon: Decimal, radius: Decimal): (r: seq<LocationRow>)
      reads this
      ensures forall x :: x in r <==> x in rows && InBox(x, lat, lon, radius)
      ensures forall x :: multiset(r)[x] == if InBox(x, lat, lon, radius) then multiset(rows)[x] else 0
    {
      var p := (x: LocationRow) => InBox(x, lat, lon, radius);
      FilterMultiplicity(rows, p);
      Filter(rows, p)
    }

    /** searchByName. */
    function SearchByName(text: string): (r: seq<LocationRow>)
      reads this
      ensures forall x :: x in r <==> x in rows && NameMatches(x, text)
      ensures forall x :: multiset(r)[x] == if NameMatches(x, text) then multiset(rows)[x] else 0
    {
      var p := (x: LocationRow) => NameMatches(x, text);
      FilterMultiplicity(rows, p);
      Filter(rows, p)
    }
  }

  /** findByAirportCode finds nothing exactly when no airport location carries the code either. */
  lemma NoCodeNoAirport(repo: LocationRepository, code: string)
    requires repo.FindByAirportCode(code).None?
    ensures forall x :: x in repo.FindAirportLocations() ==> x.airportCode != Some(code)
  {
  }
}
