/** The hurricanes table and its queries. */
module HurricaneRepositories {
  import opened Wrappers
  import opened Clock
  import opened Ordering
  import opened Retention
  import opened Persistence
  import opened HurricaneEntities

  predicate Active(row: AdvisoryRow) {
    row.isActive == Some(true)
  }

  /** status IN ('active', 'Active'); a null status is in neither. */
  predicate CurrentStatus(row: AdvisoryRow) {
    row.status == Some("active") || row.status == Some("Active")
  }

  /** advisoryTime >= from AND advisoryTime <= to. */
  predicate IssuedWithin(row: AdvisoryRow, from: DateTime, to: DateTime) {
    from <= row.advisoryTime <= to
  }

  /** category >= minimum; a null category compares as unknown and is not returned. */
  predicate AtLeastCategory(row: AdvisoryRow, minimum: int) {
    row.category.Some? && row.category.value >= minimum
  }

  /** ORDER BY advisoryTime DESC. */
  function NewestKey(row: AdvisoryRow): Key {
    [-row.advisoryTime]
  }

  /** ORDER BY advisoryTime ASC. */
  function OldestKey(row: AdvisoryRow): Key {
    [row.advisoryTime]
  }

  /** ORDER BY stormNumber, advisoryTime DESC: ascending storm numbers, nulls last. */
  function StormNumberKey(row: AdvisoryRow): Key {
    match row.stormNumber
    case Some(n) => [0, n, -row.advisoryTime]
    case None => [1, 0, -row.advisoryTime]
  }

  /** ORDER BY category DESC, advisoryTime DESC. */
  function CategoryKey(row: AdvisoryRow): Key {
    [-row.category.GetOr(0), -row.advisoryTime]
  }

  predicate NewestFirst(r: seq<AdvisoryRow>) {
    forall i, j :: 0 <= i < j < |r| ==> r[i].advisoryTime >= r[j].advisoryTime
  }

  /** The head of a newest-first sequence is at least as new as every element of it. */
  lemma NewestAtHead(r: seq<AdvisoryRow>)
    requires NewestFirst(r) && r != []
    ensures forall y :: y in r ==> y.advisoryTime <= r[0].advisoryTime
  {
    forall y | y in r ensures y.advisoryTime <= r[0].advisoryTime {
      var j :| 0 <= j < |r| && r[j] == y;
    }
  }

  predicate OldestFirst(r: seq<AdvisoryRow>) {
    forall i, j :: 0 <= i < j < |r| ==> r[i].advisoryTime <= r[j].advisoryTime
  }

  /** Storm numbers ascend, nulls last, and within one storm number the newest advisory comes first. */
  predicate ByStormNumber(r: seq<AdvisoryRow>) {
    forall i, j :: 0 <= i < j < |r| ==>
      && (r[j].stormNumber.Some? ==> r[i].stormNumber.Some? && r[i].stormNumber.value <= r[j].stormNumber.value)
      && (r[i].stormNumber == r[j].stormNumber ==> r[i].advisoryTime >= r[j].advisoryTime)
  }

  /** Categories descend, and within one category the newest advisory comes first. */
  predicate ByCategory(r: seq<AdvisoryRow>) {
    forall i, j :: 0 <= i < j < |r| ==>
      && r[i].category.GetOr(0) >= r[j].category.GetOr(0)
      && (r[i].category.GetOr(0) == r[j].category.GetOr(0) ==> r[i].advisoryTime >= r[j].advisoryTime)
  }

  /** WHERE p ORDER BY advisoryTime DESC. */
  function Newest(rows: seq<AdvisoryRow>, p: AdvisoryRow -> bool): (r: seq<AdvisoryRow>)
    ensures forall x :: x in r <==> x in rows && p(x)
    ensures multiset(r) == multiset(Filter(rows, p))
    ensures forall x :: multiset(r)[x] == if p(x) then multiset(rows)[x] else 0
    ensures NewestFirst(r)
  {
    var r := Query(rows, p, NewestKey);
    forall i, j | 0 <= i < j < |r| ensures r[i].advisoryTime >= r[j].advisoryTime {
      KeyLeSingle(-r[i].advisoryTime, -r[j].advisoryTime);
    }
    r
  }

  /** WHERE p ORDER BY advisoryTime ASC. */
  function Oldest(rows: seq<AdvisoryRow>, p: AdvisoryRow -> bool): (r: seq<AdvisoryRow>)
    ensures forall x :: x in r <==> x in rows && p(x)
    ensures multiset(r) == multiset(Filter(rows, p))
    ensures forall x :: multiset(r)[x] == if p(x) then multiset(rows)[x] else 0
    ensures OldestFirst(r)
  {
    var r := Query(rows, p, OldestKey);
    forall i, j | 0 <= i < j < |r| ensures r[i].advisoryTime <= r[j].advisoryTime {
      KeyLeSingle(r[i].advisoryTime, r[j].advisoryTime);
    }
    r
  }

  lemma StormNumberOrder(x: AdvisoryRow, y: AdvisoryRow)
    requires KeyLe(StormNumberKey(x), StormNumberKey(y))
    ensures y.stormNumber.Some? ==> x.stormNumber.Some? && x.stormNumber.value <= y.stormNumber.value
    ensures x.stormNumber == y.stormNumber ==> x.advisoryTime >= y.advisoryTime
  {
    var a, b := StormNumberKey(x), StormNumberKey(y);
    KeyLeCons(a[0], a[1..], b[0], b[1..]);
    assert a == [a[0]] + a[1..] && b == [b[0]] + b[1..];
    KeyLeCons(a[1], a[2..], b[1], b[2..]);
    assert a[1..] == [a[1]] + a[2..] && b[1..] == [b[1]] + b[2..];
    KeyLeSingle(a[2], b[2]);
    assert a[2..] == [a[2]] && b[2..] == [b[2]];
  }

  lemma CategoryOrder(x: AdvisoryRow, y: AdvisoryRow)
    requires KeyLe(CategoryKey(x), CategoryKey(y))
    ensures x.category.GetOr(0) >= y.category.GetOr(0)
    ensures x.category.GetOr(0) == y.category.GetOr(0) ==> x.advisoryTime >= y.advisoryTime
  {
    var a, b := CategoryKey(x), CategoryKey(y);
    KeyLeCons(a[0], a[1..], b[0], b[1..]);
    assert a == [a[0]] + a[1..] && b == [b[0]] + b[1..];
    KeyLeSingle(a[1], b[1]);
    assert a[1..] == [a[1]] && b[1..] == [b[1]];
  }

  /** fetchedAt < cutoff AND isActive = true. */
  function StaleBefore(cutoff: DateTime): AdvisoryRow -> bool {
    (row: AdvisoryRow) => row.fetchedAt < cutoff && Active(row)
  }

  function OlderThan(cutoff: DateTime): AdvisoryRow -> bool {
    (row: AdvisoryRow) => row.fetchedAt < cutoff
  }

  function NotOlderThan(cutoff: DateTime): AdvisoryRow -> bool {
    (row: AdvisoryRow) => !(row.fetchedAt < cutoff)
  }

  /** SET isActive = false. */
  function Retired(row: AdvisoryRow): AdvisoryRow {
    row.(isActive := Some(false))
  }

  /** What persisting one entity at now stores: the row after @PrePersist, unless it is rejected. */
  function Stored(now: DateTime): AdvisoryFields -> Option<AdvisoryRow> {
    (f: AdvisoryFields) => ToRow(Created(f, now))
  }

  function Snapshots(es: seq<HurricaneEntity>): (r: seq<AdvisoryFields>)
    reads set e | e in es
    ensures |r| == |es| && forall i :: 0 <= i < |es| ==> r[i] == es[i].Snapshot()
  {
    seq(|es|, i reads set e | e in es requires 0 <= i < |es| => es[i].Snapshot())
  }

  class HurricaneRepository {
    var rows: seq<AdvisoryRow>

    constructor(initial: seq<AdvisoryRow>)
      ensures rows == initial
    {
      rows := initial;
    }

    /** persist(entity): the @PrePersist hook runs, then the INSERT, which the database may reject. */
    method Persist(e: HurricaneEntity, now: DateTime) returns (ok: bool)
      modifies this, e
      ensures e.Snapshot() == Created(old(e.Snapshot()), now)
      ensures ok == Insertable(e.Snapshot())
      ensures rows == if ok then old(rows) + [ToRow(e.Snapshot()).value] else old(rows)
    {
      e.OnCreate(now);
      var row := ToRow(e.Snapshot());
      ok := row.Some?;
      if ok {
        rows := rows + [row.value];
      }
    }

    /** One entity of persist(list), es[i], after the first i have been stored as the rows done. */
    method PersistNext(es: seq<HurricaneEntity>, i: nat, now: DateTime, ghost before: seq<AdvisoryFields>,
                       ghost start: seq<AdvisoryRow>, ghost done: seq<AdvisoryRow>)
      returns (ok: bool, ghost done': seq<AdvisoryRow>)
      requires i < |es| == |before|
      requires forall j :: i < j < |es| ==> es[j] != es[i]
      requires forall j :: i <= j < |es| ==> es[j].Snapshot() == before[j]
      requires InsertAll(before[..i], Stored(now)) == Some(done)
      requires rows == start + done
      modifies this, es[i]
      ensures forall j :: i < j < |es| ==> es[j].Snapshot() == before[j]
      ensures !ok ==> InsertAll(before, Stored(now)).None?
      ensures ok ==> InsertAll(before[..i + 1], Stored(now)) == Some(done')
      ensures ok ==> rows == start + done'
    {
      ghost var stored := Stored(now)(before[i]);
      assert stored == ToRow(Created(before[i], now));
      ok := Persist(es[i], now);
      done' := done;
      if ok {
        assert stored == Some(rows[|rows| - 1]);
        StoredPrefix(before, i, stored.value, Stored(now));
        done' := done + [stored.value];
      }
    }

    /** persist(list): each entity in turn, stopping at the first the database rejects. */
    method PersistAll(es: seq<HurricaneEntity>, now: DateTime) returns (ok: bool)
      requires forall i, j :: 0 <= i < j < |es| ==> es[i] != es[j]
      modifies this, set e | e in es
      ensures ok <==> InsertAll(old(Snapshots(es)), Stored(now)).Some?
      ensures ok ==> rows == old(rows) + InsertAll(old(Snapshots(es)), Stored(now)).value
    {
      ghost var before := Snapshots(es);
      ghost var start := rows;
      ghost var done: seq<AdvisoryRow> := [];
      assert before[..0] == [];
      var i := 0;
      while i < |es|
        invariant 0 <= i <= |es|
        invariant forall j :: i <= j < |es| ==> es[j].Snapshot() == before[j]
        invariant InsertAll(before[..i], Stored(now)) == Some(done)
        invariant rows == start + done
      {
        ok, done := PersistNext(es, i, now, before, start, done);
        if !ok {
          return;
        }
        i := i + 1;
      }
      assert before[..i] == before;
      ok := true;
    }

    /** deactivateOldAdvisories: UPDATE SET isActive = false WHERE fetchedAt < cutoff AND isActive = true. */
    method DeactivateOldAdvisories(cutoff: DateTime) returns (count: nat)
      modifies this
      ensures rows == Deactivated(old(rows), StaleBefore(cutoff), Retired)
      ensures count == Count(old(rows), StaleBefore(cutoff))
    {
      ghost var before := rows;
      var i := 0;
      count := 0;
      while i < |rows|
        invariant RetiredUpTo(rows, before, i, StaleBefore(cutoff), Retired)
        invariant count == Count(before[..i], StaleBefore(cutoff))
      {
        assert before[..i + 1] == before[..i] + [before[i]];
        CountAppend(before[..i], before[i], StaleBefore(cutoff));
        RetireStep(rows, before, i, StaleBefore(cutoff), Retired);
        assert StaleBefore(cutoff)(rows[i]) == (rows[i].fetchedAt < cutoff && Active(rows[i]));
        if rows[i].fetchedAt < cutoff && Active(rows[i]) {
          rows := rows[i := Retired(rows[i])];
          count := count + 1;
        }
        i := i + 1;
      }
      assert before[..i] == before;
      RetiredAll(rows, before, StaleBefore(cutoff), Retired);
    }

    /** deleteOldAdvisories: DELETE WHERE fetchedAt < cutoff, active or not. */
    method DeleteOldAdvisories(cutoff: DateTime) returns (count: nat)
      modifies this
      ensures rows == Filter(old(rows), NotOlderThan(cutoff))
      ensures count == Count(old(rows), OlderThan(cutoff))
    {
      FilterComplement(rows, OlderThan(cutoff), NotOlderThan(cutoff));
      count := |rows| - |Filter(rows, NotOlderThan(cutoff))|;
      rows := Filter(rows, NotOlderThan(cutoff));
    }

    /** findActiveStorms. */
    function FindActiveStorms(): (r: seq<AdvisoryRow>)
      reads this
      ensures forall x :: x in r <==> x in rows && Active(x) && CurrentStatus(x)
      ensures forall x :: multiset(r)[x] == if Active(x) && CurrentStatus(x) then multiset(rows)[x] else 0
      ensures NewestFirst(r)
    {
      Newest(rows, (x: AdvisoryRow) => Active(x) && CurrentStatus(x))
    }

    /** findByStormId: every advisory of the storm, retired ones included. */
    function FindByStormId(stormId: string): (r: seq<AdvisoryRow>)
      reads this
      ensures forall x :: x in r <==> x in rows && x.stormId == stormId
      ensures forall x :: multiset(r)[x] == if x.stormId == stormId then multiset(rows)[x] else 0
      ensures NewestFirst(r)
    {
      Newest(rows, (x: AdvisoryRow) => x.stormId == stormId)
    }

    /** findLatestByStormId: an advisory of the storm no other advisory of it is newer than. */
    function FindLatestByStormId(stormId: string): (r: Option<AdvisoryRow>)
      reads this
      ensures r.Some? ==> r.value in rows && r.value.stormId == stormId
      ensures r.Some? ==> forall y :: y in rows && y.stormId == stormId ==> y.advisoryTime <= r.value.advisoryTime
      ensures r.None? <==> forall i :: 0 <= i < |rows| ==> rows[i].stormId != stormId
    {
      var all := FindByStormId(stormId);
      if all == [] then
        assert forall i :: 0 <= i < |rows| ==> rows[i].stormId != stormId by {
          forall i | 0 <= i < |rows| ensures rows[i].stormId != stormId {
            assert rows[i] in rows;
          }
        }
        None
      else
        NewestAtHead(all);
        Some(all[0])
    }

    /** findByStormName. */
    function FindByStormName(stormName: string): (r: seq<AdvisoryRow>)
      reads this
      ensures forall x :: x in r <==> x in rows && x.stormName == Some(stormName)
      ensures forall x :: multiset(r)[x] == if x.stormName == Some(stormName) then multiset(rows)[x] else 0
      ensures NewestFirst(r)
    {
      Newest(rows, (x: AdvisoryRow) => x.stormName == Some(stormName))
    }

    /** findByBasin: active advisories only. */
    function FindByBasin(basin: string): (r: seq<AdvisoryRow>)
      reads this
      ensures forall x :: x in r <==> x in rows && x.basin == Some(basin) && Active(x)
      ensures forall x :: multiset(r)[x] == if x.basin == Some(basin) && Active(x) then multiset(rows)[x] else 0
      ensures NewestFirst(r)
    {
      Newest(rows, (x: AdvisoryRow) => x.basin == Some(basin) && Active(x))
    }

    /** findByYear. */
    function FindByYear(year: int): (r: seq<AdvisoryRow>)
      reads this
      ensures forall x :: x in r <==> x in rows && x.year == Some(year)
      ensures forall x :: multiset(r)[x] == if x.year == Some(year) then multiset(rows)[x] else 0
      ensures NewestFirst(r)
    {
      Newest(rows, (x: AdvisoryRow) => x.year == Some(year))
    }

    /** findByBasinAndYear: ordered by storm number, then newest first. */
    function FindByBasinAndYear(basin: string, year: int): (r: seq<AdvisoryRow>)
      reads this
      ensures forall x :: x in r <==> x in rows && x.basin == Some(basin) && x.year == Some(year)
      ensures forall x :: multiset(r)[x] == if x.basin == Some(basin) && x.year == Some(year) then multiset(rows)[x] else 0
      ensures ByStormNumber(r)
    {
      var r := Query(rows, (x: AdvisoryRow) => x.basin == Some(basin) && x.year == Some(year), StormNumberKey);
      forall i, j | 0 <= i < j < |r|
        ensures r[j].stormNumber.Some? ==> r[i].stormNumber.Some? && r[i].stormNumber.value <= r[j].stormNumber.value
        ensures r[i].stormNumber == r[j].stormNumber ==> r[i].advisoryTime >= r[j].advisoryTime
      {
        StormNumberOrder(r[i], r[j]);
      }
      r
    }

    /** findByCategory: active advisories only. */
    function FindByCategory(category: int): (r: seq<AdvisoryRow>)
      reads this
      ensures forall x :: x in r <==> x in rows && x.category == Some(category) && Active(x)
      ensures forall x :: multiset(r)[x] == if x.category == Some(category) && Active(x) then multiset(rows)[x] else 0
      ensures NewestFirst(r)
    {
      Newest(rows, (x: AdvisoryRow) => x.category == Some(category) && Active(x))
    }

    /** findByMinimumCategory: strongest first, then newest first. */
    function FindByMinimumCategory(minimum: int): (r: seq<AdvisoryRow>)
      reads this
      ensures forall x :: x in r <==> x in rows && AtLeastCategory(x, minimum) && Active(x)
      ensures forall x :: multiset(r)[x] == if AtLeastCategory(x, minimum) && Active(x) then multiset(rows)[x] else 0
      ensures ByCategory(r)
    {
      var r := Query(rows, (x: AdvisoryRow) => AtLeastCategory(x, minimum) && Active(x), CategoryKey);
      forall i, j | 0 <= i < j < |r|
        ensures r[i].category.GetOr(0) >= r[j].category.GetOr(0)
        ensures r[i].category.GetOr(0) == r[j].category.GetOr(0) ==> r[i].advisoryTime >= r[j].advisoryTime
      {
        CategoryOrder(r[i], r[j]);
      }
      r
    }

    /** findByStatus. */
    function FindByStatus(status: string): (r: seq<AdvisoryRow>)
      reads this
      ensures forall x :: x in r <==> x in rows && x.status == Some(status)
      ensures forall x :: multiset(r)[x] == if x.status == Some(status) then multiset(rows)[x] else 0
      ensures NewestFirst(r)
    {
      Newest(rows, (x: AdvisoryRow) => x.status == Some(status))
    }

    /** findByTimeRange: active advisories issued within [from, to]. */
    function FindByTimeRange(from: DateTime, to: DateTime): (r: seq<AdvisoryRow>)
      reads this
      ensures forall x :: x in r <==> x in rows && IssuedWithin(x, from, to) && Active(x)
      ensures forall x :: multiset(r)[x] == if IssuedWithin(x, from, to) && Active(x) then multiset(rows)[x] else 0
      ensures NewestFirst(r)
    {
      Newest(rows, (x: AdvisoryRow) => IssuedWithin(x, from, to) && Active(x))
    }

    /** findStormTrack: the storm's advisories within [from, to], retired ones included, oldest first. */
    function FindStormTrack(stormId: string, from: DateTime, to: DateTime): (r: seq<AdvisoryRow>)
      reads this
      ensures forall x :: x in r <==> x in rows && x.stormId == stormId && IssuedWithin(x, from, to)
      ensures forall x :: multiset(r)[x] == if x.stormId == stormId && IssuedWithin(x, from, to) then multiset(rows)[x] else 0
      ensures OldestFirst(r)
    {
      Oldest(rows, (x: AdvisoryRow) => x.stormId == stormId && IssuedWithin(x, from, to))
    }
  }

  /** deactivateOldAdvisories flips exactly the stale rows and leaves every other column alone. */
  lemma DeactivateChangesOnlyStaleRows(rows: seq<AdvisoryRow>, cutoff: DateTime, i: int)
    requires 0 <= i < |rows|
    ensures var d := Deactivated(rows, StaleBefore(cutoff), Retired);
      && (rows[i].fetchedAt < cutoff && Active(rows[i]) ==> d[i] == rows[i].(isActive := Some(false)))
      && (!(rows[i].fetchedAt < cutoff && Active(rows[i])) ==> d[i] == rows[i])
  {
  }

  /** A second deactivateOldAdvisories with the same cutoff finds nothing to do. */
  lemma DeactivateTwiceCountsZero(rows: seq<AdvisoryRow>, cutoff: DateTime)
    ensures var d := Deactivated(rows, StaleBefore(cutoff), Retired);
      Count(d, StaleBefore(cutoff)) == 0 && Deactivated(d, StaleBefore(cutoff), Retired) == d
  {
    DeactivatedIdempotent(rows, StaleBefore(cutoff), Retired);
  }

  /** After deleteOldAdvisories no row older than the cutoff is left, so a rerun deletes nothing. */
  lemma DeleteTwiceCountsZero(rows: seq<AdvisoryRow>, cutoff: DateTime)
    ensures Count(Filter(rows, NotOlderThan(cutoff)), OlderThan(cutoff)) == 0
  {
    NothingOldRemains(rows, OlderThan(cutoff), NotOlderThan(cutoff));
  }
}
