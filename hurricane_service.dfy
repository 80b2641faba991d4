/**
 * Storm ingestion: the National Hurricane Center's active storms become hurricanes rows,
 * with the wind conversion and the Saffir-Simpson category the conversion uses.
 */
module HurricaneServices {
  import opened Wrappers
  import opened Decimals
  import opened Clock
  import opened Ordering
  import opened Retention
  import opened Persistence
  import opened Feeds
  import opened HurricaneEntities
  import opened HurricaneRepositories

  /** knotsToMph: knots × 1.15078, rounded half up to a long and cast to int; null stays null. */
  function KnotsToMph(knots: Option<int>): (r: Option<int>)
    ensures r.None? <==> knots.None?
  {
    match knots
    case None => None
    case Some(k) => Some(ToInt32(MathRound(k * 115078, 100000)))
  }

  /** Below about a billion knots nothing wraps: the result is the product rounded to the nearest mile. */
  lemma KnotsToMphRounds(k: int)
    requires -1_000_000_000 <= k <= 1_000_000_000
    ensures var mph := KnotsToMph(Some(k)).value;
      2 * 100000 * mph <= 2 * k * 115078 + 100000 < 2 * 100000 * (mph + 1)
  {
    var m := MathRound(k * 115078, 100000);
    assert 2 * 100000 * m <= 2 * k * 115078 + 100000 < 2 * 100000 * (m + 1);
    assert MinInt32 <= m <= MaxInt32;
  }

  lemma HundredKnots()
    ensures KnotsToMph(Some(100)) == Some(115)
    ensures KnotsToMph(Some(64)) == Some(74)
  {
    KnotsToMphRounds(100);
    KnotsToMphRounds(64);
  }

  /** The lower wind bounds, in mph, of Saffir-Simpson categories 1 to 5. */
  const CategoryThresholds: seq<int> := [74, 96, 111, 130, 157]

  /** determineCategory: the Saffir-Simpson category of a sustained wind in mph; null is 0. */
  function DetermineCategory(windSpeedMph: Option<int>): (r: int)
    ensures 0 <= r <= 5
  {
    if windSpeedMph.None? then 0
    else
      var w := windSpeedMph.value;
      if w >= 157 then 5
      else if w >= 130 then 4
      else if w >= 111 then 3
      else if w >= 96 then 2
      else if w >= 74 then 1
      else 0
  }

  /** How many of the first n thresholds the wind reaches. */
  function ThresholdsReached(w: int, n: nat): nat
    requires n <= |CategoryThresholds|
  {
    if n == 0 then 0
    else ThresholdsReached(w, n - 1) + (if w >= CategoryThresholds[n - 1] then 1 else 0)
  }

  /** The category is the number of thresholds the wind reaches. */
  lemma CategoryCountsThresholds(w: int)
    ensures DetermineCategory(Some(w)) == ThresholdsReached(w, |CategoryThresholds|)
  {
    assert ThresholdsReached(w, 1) == (if w >= 74 then 1 else 0);
    assert ThresholdsReached(w, 2) == ThresholdsReached(w, 1) + (if w >= 96 then 1 else 0);
    assert ThresholdsReached(w, 3) == ThresholdsReached(w, 2) + (if w >= 111 then 1 else 0);
    assert ThresholdsReached(w, 4) == ThresholdsReached(w, 3) + (if w >= 130 then 1 else 0);
    assert ThresholdsReached(w, 5) == ThresholdsReached(w, 4) + (if w >= 157 then 1 else 0);
  }

  /** A stronger wind never has a lower category. */
  lemma CategoryMonotone(a: int, b: int)
    requires a <= b
    ensures DetermineCategory(Some(a)) <= DetermineCategory(Some(b))
  {
  }

  /** The storm number: the two characters after the basin in binNumber, as Integer.parseInt reads them. */
  function StormNumber(binNumber: string): Option<int> {
    if |binNumber| < 4 then None else ParseInt(binNumber[2..4])
  }

  /**
   * The entity fetchAndStoreActiveStorms builds for one storm, or None where building it throws
   * and the storm is skipped: a binNumber shorter than four characters or without a number after
   * the basin, or a NaN or infinite position or movement speed.
   */
  function Advisory(storm: NhcStorm, parse: string -> Option<DateTime>, now: DateTime): Option<AdvisoryFields> {
    var bin := AsText(storm.binNumber);
    var number := StormNumber(bin);
    var position := storm.latestPosition;
    var lat := if position.Some? then DecimalOfDouble(AsDouble(position.value.lat)) else None;
    var lon := if position.Some? then DecimalOfDouble(AsDouble(position.value.lon)) else None;
    var movement := storm.movement;
    var movementKnots := if movement.Some? then DecimalOfDouble(AsDouble(movement.value.kts)) else None;
    var movementMph := if movement.Some? then DecimalOfDouble(AsDouble(movement.value.mph)) else None;
    if number.None? then None
    else if position.Some? && (lat.None? || lon.None?) then None
    else if movement.Some? && (movementKnots.None? || movementMph.None?) then None
    else
      var knots := Some(AsInt(storm.intensityKts));
      var mph := KnotsToMph(knots);
      Some(NewAdvisory.(
        stormId := Some(AsText(storm.id)),
        stormName := Some(AsText(storm.name)),
        basin := Some(bin[..2]),
        stormNumber := number,
        year := Some(YearOf(now)),
        latitude := lat,
        longitude := lon,
        maxSustainedWindsKnots := knots,
        maxSustainedWindsMph := mph,
        minCentralPressureMb := Some(AsInt(storm.pressureMb)),
        classification := Some(AsText(storm.classification)),
        status := Some("active"),
        category := Some(DetermineCategory(mph)),
        movementDirection := if movement.Some? then Some(AsInt(movement.value.degrees)) else None,
        movementSpeedKnots := movementKnots,
        movementSpeedMph := movementMph,
        advisoryTime := Some(ParseIso8601(parse, AsText(storm.lastUpdate), now)),
        forecastTime := Some(now),
        fetchedAt := Some(now),
        forecastData := Some(storm.json)))
  }

  function Conversion(parse: string -> Option<DateTime>, now: DateTime): NhcStorm -> Option<AdvisoryFields> {
    (storm: NhcStorm) => Advisory(storm, parse, now)
  }

  /** The entities of the storms that convert, in order; the others are skipped. */
  function Advisories(storms: seq<NhcStorm>, parse: string -> Option<DateTime>, now: DateTime): seq<AdvisoryFields> {
    Converted(storms, Conversion(parse, now))
  }

  /** fetchAndStoreActiveStorms up to persist: no array of active storms means nothing to store. */
  function StormPlan(response: Call<NhcResponse>, parse: string -> Option<DateTime>, now: DateTime): seq<AdvisoryFields> {
    match response
    case Threw => []
    case Returned(r) => if r.activeStorms.None? then [] else Advisories(r.activeStorms.value, parse, now)
  }

  /** What a fetch leaves in hurricanes: the converted storms appended, or nothing at all. */
  function Outcome(rows: seq<AdvisoryRow>, entities: seq<AdvisoryFields>, now: DateTime, commitFails: bool): seq<AdvisoryRow> {
    var stored := InsertAll(entities, Stored(now));
    if !commitFails && stored.Some? then rows + stored.value else rows
  }

  // ---------------------------------------------------------------------------
  // What the fetch stores

  /**
   * A storm converts exactly when its binNumber carries a storm number and its position and
   * movement, where present, are finite; its advisory then carries the basin prefix, the category
   * of its converted wind, the current year, and is active.
   */
  lemma AdvisoryConverts(storm: NhcStorm, parse: string -> Option<DateTime>, now: DateTime)
    ensures var f := Advisory(storm, parse, now);
      var bin := AsText(storm.binNumber);
      && (f.Some? <==>
            && |bin| >= 4 && ParseInt(bin[2..4]).Some?
            && (storm.latestPosition.Some? ==>
                  AsDouble(storm.latestPosition.value.lat).Finite? && AsDouble(storm.latestPosition.value.lon).Finite?)
            && (storm.movement.Some? ==>
                  AsDouble(storm.movement.value.kts).Finite? && AsDouble(storm.movement.value.mph).Finite?))
      && (f.Some? ==>
            && f.value.basin == Some(bin[..2]) && f.value.stormNumber == ParseInt(bin[2..4])
            && f.value.maxSustainedWindsMph == KnotsToMph(Some(AsInt(storm.intensityKts)))
            && f.value.category == Some(DetermineCategory(f.value.maxSustainedWindsMph))
            && f.value.status == Some("active") && f.value.year == Some(YearOf(now))
            && f.value.isActive == Some(true) && f.value.fetchedAt == Some(now))
  {
  }

  /**
   * A storm without a latestPosition converts with no coordinates, which the NOT NULL columns
   * reject, so the whole fetch stores nothing.
   */
  lemma MissingPositionDiscardsFetch(storms: seq<NhcStorm>, parse: string -> Option<DateTime>, now: DateTime, i: int)
    requires 0 <= i < |storms| && storms[i].latestPosition.None? && Advisory(storms[i], parse, now).Some?
    ensures InsertAll(Advisories(storms, parse, now), Stored(now)).None?
  {
    var f := Advisory(storms[i], parse, now).value;
    assert f.latitude.None?;
    assert Stored(now)(f).None?;
    ConvertedRejected(storms, Conversion(parse, now), Stored(now), i);
  }

  /** Whatever the fetch does, the rows already stored stay as they were. */
  lemma OutcomeOnlyAppends(rows: seq<AdvisoryRow>, entities: seq<AdvisoryFields>, now: DateTime, commitFails: bool)
    ensures var r := Outcome(rows, entities, now, commitFails);
      && |rows| <= |r| && r[..|rows|] == rows
      && (|r| == |rows| || |r| == |rows| + |entities|)
      && (commitFails ==> r == rows)
  {
  }

  // ---------------------------------------------------------------------------
  // The service

  class HurricaneService {
    const advisories: HurricaneRepository

    constructor(advisories: HurricaneRepository)
      ensures this.advisories == advisories
    {
      this.advisories := advisories;
    }

    /** getActiveStorms. */
    function GetActiveStorms(): (r: seq<AdvisoryRow>)
      reads advisories
      ensures forall x :: x in r <==> x in advisories.rows && Active(x) && CurrentStatus(x)
      ensures forall x :: multiset(r)[x] == if Active(x) && CurrentStatus(x) then multiset(advisories.rows)[x] else 0
      ensures NewestFirst(r)
    {
      advisories.FindActiveStorms()
    }

    /** getStormById. */
    function GetStormById(stormId: string): (r: seq<AdvisoryRow>)
      reads advisories
      ensures forall x :: x in r <==> x in advisories.rows && x.stormId == stormId
      ensures forall x :: multiset(r)[x] == if x.stormId == stormId then multiset(advisories.rows)[x] else 0
      ensures NewestFirst(r)
    {
      advisories.FindByStormId(stormId)
    }

    /** getStormTrack. */
    function GetStormTrack(stormId: string, from: DateTime, to: DateTime): (r: seq<AdvisoryRow>)
      reads advisories
      ensures forall x :: x in r <==> x in advisories.rows && x.stormId == stormId && IssuedWithin(x, from, to)
      ensures forall x :: multiset(r)[x] == if x.stormId == stormId && IssuedWithin(x, from, to) then multiset(advisories.rows)[x] else 0
      ensures OldestFirst(r)
    {
      advisories.FindStormTrack(stormId, from, to)
    }

    /** The loop over the storms: one new entity per storm that converts, in order. */
    method BuildAdvisories(storms: seq<NhcStorm>, parse: string -> Option<DateTime>, now: DateTime)
      returns (es: seq<HurricaneEntity>)
      ensures forall e :: e in es ==> fresh(e)
      ensures forall j, k :: 0 <= j < k < |es| ==> es[j] != es[k]
      ensures Snapshots(es) == Advisories(storms, parse, now)
    {
      es := BuildConverted(storms, Conversion(parse, now));
    }

    /** The same loop for any conversion of a storm into an entity. */
    method BuildConverted(storms: seq<NhcStorm>, convert: NhcStorm -> Option<AdvisoryFields>)
      returns (es: seq<HurricaneEntity>)
      ensures forall e :: e in es ==> fresh(e)
      ensures forall j, k :: 0 <= j < k < |es| ==> es[j] != es[k]
      ensures Snapshots(es) == Converted(storms, convert)
    {
      es := [];
      var i := 0;
      while i < |storms|
        invariant 0 <= i <= |storms|
        invariant forall e :: e in es ==> fresh(e)
        invariant forall j, k :: 0 <= j < k < |es| ==> es[j] != es[k]
        invariant Snapshots(es) == Converted(storms[..i], convert)
      {
        ConvertedPrefix(storms, i, convert);
        var f := convert(storms[i]);
        if f.Some? {
          var e := new HurricaneEntity.Of(f.value);
          es := es + [e];
        }
        i := i + 1;
      }
      assert storms[..i] == storms;
    }

    /** fetchAndStoreActiveStorms. */
    method FetchAndStoreActiveStorms(up: Upstream, now: DateTime) returns (requests: seq<Request>, threw: bool)
      modifies advisories
      ensures requests == [StormsRequest]
      ensures threw == up.commitFails(StormFetch)
      ensures advisories.rows == Outcome(old(advisories.rows), StormPlan(up.nhc, up.parse, now), now, threw)
    {
      requests := [StormsRequest];
      var saved := advisories.rows;
      ghost var plan := StormPlan(up.nhc, up.parse, now);
      var es: seq<HurricaneEntity> := [];
      if up.nhc.Returned? && up.nhc.body.activeStorms.Some? {
        es := BuildAdvisories(up.nhc.body.activeStorms.value, up.parse, now);
      }
      Persist(es, plan, now);
      threw := up.commitFails(StormFetch);
      if threw {
        advisories.rows := saved;
      }
    }

    /** The persist of the new entities, when there are any; a rejected row rolls the table back. */
    method Persist(es: seq<HurricaneEntity>, ghost plan: seq<AdvisoryFields>, now: DateTime)
      requires forall j, k :: 0 <= j < k < |es| ==> es[j] != es[k]
      requires Snapshots(es) == plan
      modifies advisories, set e | e in es
      ensures advisories.rows == Outcome(old(advisories.rows), plan, now, false)
    {
      var saved := advisories.rows;
      if es != [] {
        var ok := advisories.PersistAll(es, now);
        if !ok {
          advisories.rows := saved;
        }
      }
    }

    /** deactivateOldAdvisories in its own transaction. */
    method DeactivateOldAdvisories(olderThan: DateTime, commitFails: bool) returns (count: nat, threw: bool)
      modifies advisories
      ensures threw == commitFails
      ensures count == Count(old(advisories.rows), StaleBefore(olderThan))
      ensures advisories.rows == if threw then old(advisories.rows) else Deactivated(old(advisories.rows), StaleBefore(olderThan), Retired)
    {
      var saved := advisories.rows;
      count := advisories.DeactivateOldAdvisories(olderThan);
      if commitFails {
        advisories.rows := saved;
      }
      threw := commitFails;
    }
  }
}
