/**
 * The airport reference loader: its quote-aware CSV field splitter, the mapping of an
 * OurAirports row to a location, and the batched load of a whole file into the locations table.
 */
module AirportCsvLoaders {
  import opened Wrappers
  import opened Decimals
  import opened Clock
  import opened Text
  import opened LocationEntities
  import opened LocationRepositories

  // ---------------------------------------------------------------------------
  // parseCsvFields

  /** What parseCsvFields' loop holds after reading part of a line. */
  datatype Scanner = Scanner(fields: seq<string>, current: string, inQuotes: bool)

  /**
   * The loop state after reading s: a quote toggles inQuotes and is dropped, a comma outside
   * quotes closes the trimmed current field, any other character is appended to it.
   */
  function Scan(s: string): Scanner
    decreases |s|
  {
    if s == [] then Scanner([], "", false)
    else
      var st := Scan(s[..|s| - 1]);
      var c := s[|s| - 1];
      if c == '"' then st.(inQuotes := !st.inQuotes)
      else if c == ',' && !st.inQuotes then st.(fields := st.fields + [Trim(st.current)], current := "")
      else st.(current := st.current + [c])
  }

  /** The fields parseCsvFields returns: those the commas closed, then the trimmed remainder. */
  function CsvFields(line: string): (r: seq<string>)
    ensures |r| >= 1
  {
    Scan(line).fields + [Trim(Scan(line).current)]
  }

  /** parseCsvFields: the character loop over the line. */
  method ParseCsvFields(line: string) returns (fields: seq<string>)
    ensures fields == CsvFields(line)
  {
    fields := [];
    var current := "";
    var inQuotes := false;
    for i := 0 to |line|
      invariant Scan(line[..i]) == Scanner(fields, current, inQuotes)
    {
      assert line[..i + 1][..i] == line[..i];
      var c := line[i];
      if c == '"' {
        inQuotes := !inQuotes;
      } else if c == ',' && !inQuotes {
        fields := fields + [Trim(current)];
        current := "";
      } else {
        current := current + [c];
      }
    }
    assert line[..|line|] == line;
    fields := fields + [Trim(current)];
  }

  /** The number of quote characters in s. */
  function QuoteCount(s: string): nat
    decreases |s|
  {
    if s == [] then 0 else QuoteCount(s[..|s| - 1]) + (if s[|s| - 1] == '"' then 1 else 0)
  }

  /** A comma separates fields when an even number of quotes precede it. */
  predicate IsSeparator(s: string, i: nat)
    requires i < |s|
  {
    s[i] == ',' && QuoteCount(s[..i]) % 2 == 0
  }

  /** The number of commas outside quotes. */
  function SeparatorCount(s: string): nat
    decreases |s|
  {
    if s == [] then 0 else SeparatorCount(s[..|s| - 1]) + (if IsSeparator(s, |s| - 1) then 1 else 0)
  }

  lemma {:induction false} ScanCounts(s: string)
    ensures Scan(s).inQuotes <==> QuoteCount(s) % 2 == 1
    ensures |Scan(s).fields| == SeparatorCount(s)
    decreases |s|
  {
    if s != [] {
      ScanCounts(s[..|s| - 1]);
    }
  }

  /** There is one field more than there are commas outside quotes. */
  lemma FieldCount(line: string)
    ensures |CsvFields(line)| == SeparatorCount(line) + 1
  {
    ScanCounts(line);
  }

  /** No field the loop has closed, nor the field it is building, holds a quote; closed fields are trimmed. */
  lemma {:induction false} ScanClean(s: string)
    ensures '"' !in Scan(s).current
    ensures forall k :: 0 <= k < |Scan(s).fields| ==>
      '"' !in Scan(s).fields[k] && Trimmed(Scan(s).fields[k])
    decreases |s|
  {
    if s != [] {
      var st := Scan(s[..|s| - 1]);
      ScanClean(s[..|s| - 1]);
      var c := s[|s| - 1];
      if c == ',' && !st.inQuotes {
        TrimKeepsChars(st.current, '"');
        TrimShape(st.current);
      }
    }
  }

  /** Every field is trimmed and none holds a quote character. */
  lemma CsvFieldsClean(line: string)
    ensures forall k :: 0 <= k < |CsvFields(line)| ==>
      '"' !in CsvFields(line)[k] && Trimmed(CsvFields(line)[k])
  {
    var st := Scan(line);
    ScanClean(line);
    TrimKeepsChars(st.current, '"');
    TrimShape(st.current);
    var r := CsvFields(line);
    assert r == st.fields + [Trim(st.current)];
    forall k | 0 <= k < |r|
      ensures '"' !in r[k] && Trimmed(r[k])
    {
      if k < |st.fields| {
        assert r[k] == st.fields[k];
      } else {
        assert r[k] == Trim(st.current);
      }
    }
  }

  /** Text without quotes is appended to the current field, commas included while inside quotes. */
  lemma {:induction false} ScanLiteral(p: string, a: string)
    requires '"' !in a
    requires Scan(p).inQuotes || ',' !in a
    ensures Scan(p + a) == Scan(p).(current := Scan(p).current + a)
    decreases |a|
  {
    if a == [] {
      assert p + a == p;
    } else {
      var init, c := a[..|a| - 1], a[|a| - 1];
      assert a == init + [c];
      assert c in a && c != '"';
      ScanLiteral(p, init);
      var st := Scan(p + init);
      assert st == Scan(p).(current := Scan(p).current + init);
      assert c != ',' || st.inQuotes;
      ScanSnoc(p + init, c);
      assert Scan((p + init) + [c]) == st.(current := st.current + [c]);
      assert p + a == (p + init) + [c];
      assert st.current + [c] == Scan(p).current + a;
    }
  }

  /** One more character: the step of parseCsvFields' loop. */
  lemma ScanSnoc(s: string, c: char)
    ensures Scan(s + [c]) ==
      var st := Scan(s);
      if c == '"' then st.(inQuotes := !st.inQuotes)
      else if c == ',' && !st.inQuotes then st.(fields := st.fields + [Trim(st.current)], current := "")
      else st.(current := st.current + [c])
  {
    assert (s + [c])[..|s|] == s;
  }

  /** A quoted span keeps its commas: it joins the current field, without the quotes. */
  lemma QuotedSpan(p: string, a: string)
    requires !Scan(p).inQuotes && '"' !in a
    ensures Scan(p + ['"'] + a + ['"']) == Scan(p).(current := Scan(p).current + a)
  {
    var q := p + ['"'];
    assert q[..|q| - 1] == p;
    ScanLiteral(q, a);
    var s := q + a + ['"'];
    assert s[..|s| - 1] == q + a;
  }

  /** A line that is one quoted field gives that field, commas and all, trimmed. */
  lemma QuotedFieldKeepsCommas(a: string)
    requires '"' !in a
    ensures CsvFields("\"" + a + "\"") == [Trim(a)]
  {
    QuotedSpan([], a);
    assert [] + ['"'] + a + ['"'] == "\"" + a + "\"";
    assert Scan([]) == Scanner([], "", false);
    assert "" + a == a;
  }

  /** A field written without quoting: no quote, no comma, no surrounding blanks. */
  predicate PlainField(c: string) {
    '"' !in c && ',' !in c && Trimmed(c)
  }

  /** Fields joined by commas. */
  function JoinFields(cols: seq<string>): string
    requires |cols| >= 1
    decreases |cols|
  {
    if |cols| == 1 then cols[0] else JoinFields(cols[..|cols| - 1]) + "," + cols[|cols| - 1]
  }

  lemma {:induction false} ScanJoin(cols: seq<string>)
    requires |cols| >= 1
    requires forall k :: 0 <= k < |cols| ==> PlainField(cols[k])
    ensures Scan(JoinFields(cols)) == Scanner(cols[..|cols| - 1], cols[|cols| - 1], false)
    decreases |cols|
  {
    var n := |cols|;
    if n == 1 {
      ScanLiteral([], cols[0]);
      assert [] + cols[0] == cols[0];
    } else {
      var init := cols[..n - 1];
      ScanJoin(init);
      var q := JoinFields(init) + ",";
      ScanComma(JoinFields(init), init);
      ScanLiteral(q, cols[n - 1]);
      assert JoinFields(cols) == q + cols[n - 1];
    }
  }

  /** A comma outside quotes closes the last plain field. */
  lemma ScanComma(p: string, cols: seq<string>)
    requires |cols| >= 1 && Trimmed(cols[|cols| - 1])
    requires Scan(p) == Scanner(cols[..|cols| - 1], cols[|cols| - 1], false)
    ensures Scan(p + ",") == Scanner(cols, "", false)
  {
    var q := p + ",";
    assert q[..|q| - 1] == p;
    TrimmedIsFixed(cols[|cols| - 1]);
    assert cols[..|cols| - 1] + [cols[|cols| - 1]] == cols;
  }

  lemma FieldsOfScan(line: string, cols: seq<string>)
    requires |cols| >= 1 && Trimmed(cols[|cols| - 1])
    requires Scan(line) == Scanner(cols[..|cols| - 1], cols[|cols| - 1], false)
    ensures CsvFields(line) == cols
  {
    var last := cols[|cols| - 1];
    TrimmedIsFixed(last);
    assert cols[..|cols| - 1] + [last] == cols;
  }

  /** Splitting fields joined by commas gives them back. */
  lemma CsvFieldsOfJoin(cols: seq<string>)
    requires |cols| >= 1
    requires forall k :: 0 <= k < |cols| ==> PlainField(cols[k])
    ensures CsvFields(JoinFields(cols)) == cols
  {
    ScanJoin(cols);
    FieldsOfScan(JoinFields(cols), cols);
  }

  // ---------------------------------------------------------------------------
  // parseCsvLine and its helpers

  /** isRelevantAirportType. */
  predicate IsRelevantAirportType(t: string) {
    t == "large_airport" || t == "medium_airport" || t == "small_airport"
  }

  /** parseCountryName: the ISO code itself, "Unknown" when empty. */
  function ParseCountryName(isoCountry: string): string {
    if isoCountry == [] then "Unknown" else isoCountry
  }

  /**
   * parseRegionName: the municipality when the region is empty, otherwise the second piece of
   * the region split at '-', or the whole region when the split gives fewer than two pieces.
   */
  function ParseRegionName(isoRegion: string, municipality: string): string {
    if isoRegion == [] then municipality
    else
      var parts := Split(isoRegion, '-');
      if |parts| > 1 then parts[1] else isoRegion
  }

  /** "US-CA" gives "CA", and so does "US-CA-XX": the piece after the first dash. */
  lemma RegionIsSubdivision(country: string, sub: string, rest: string, municipality: string)
    requires '-' !in country && '-' !in sub && sub != []
    requires rest == [] || rest[0] == '-'
    ensures ParseRegionName(country + "-" + sub + rest, municipality) == sub
  {
    var s := country + "-" + sub + rest;
    assert s == country + ['-'] + (sub + rest);
    assert s[|country|] == '-';
    SecondPiece(country, sub, rest, '-');
    var ps := Pieces(s, '-');
    var parts := DropTrailingEmpty(ps);
    assert |parts| > 1;
    assert parts[1] == ps[1];
  }

  /** An empty region gives the municipality; a region without a dash is kept as it is. */
  lemma RegionWithoutSubdivision(isoRegion: string, municipality: string)
    requires '-' !in isoRegion
    ensures ParseRegionName(isoRegion, municipality) == if isoRegion == [] then municipality else isoRegion
  {
  }

  /** "US-" is kept as it is: the split drops the trailing empty piece and leaves one. */
  lemma RegionWithTrailingDash(country: string, municipality: string)
    requires '-' !in country && country != []
    ensures ParseRegionName(country + "-", municipality) == country + "-"
  {
    SplitTrailing(country, '-');
  }

  /** A new location of type "airport" with a non-empty airport code and no id yet. */
  predicate IsParsedAirport(f: LocationFields) {
    f.id.None? && f.locationType == Some("airport") && f.airportCode.Some? && f.airportCode.value != []
  }

  /**
   * parseCsvLine: None (Java null) for a line of fewer than 14 fields, of another type than the
   * three airport sizes, with a blank ICAO code (field 12) or with a latitude (field 4) or
   * longitude (field 5) that new BigDecimal rejects; otherwise a new location of type "airport".
   */
  function ParseCsvLine(line: string): (r: Option<LocationFields>)
    ensures r.Some? ==> IsParsedAirport(r.value)
  {
    var fields := CsvFields(line);
    if |fields| < 14 then None
    else if !IsRelevantAirportType(fields[2]) then None
    else if Trim(fields[12]) == [] then None
    else
      match (ParseDecimal(fields[4]), ParseDecimal(fields[5]))
      case (Some(latitude), Some(longitude)) =>
        Some(NewLocation.(
          name := Some(fields[3]),
          latitude := Some(latitude),
          longitude := Some(longitude),
          locationType := Some("airport"),
          airportCode := Some(Trim(fields[12])),
          country := Some(ParseCountryName(fields[8])),
          state := Some(ParseRegionName(fields[9], fields[10]))))
      case _ => None
  }

  /** The airport a line yields and exactly when it yields one. */
  lemma ParsedAirport(line: string)
    ensures var fields := CsvFields(line);
      ParseCsvLine(line).Some? <==>
        && |fields| >= 14 && IsRelevantAirportType(fields[2]) && fields[12] != []
        && ParseDecimal(fields[4]).Some? && ParseDecimal(fields[5]).Some?
    ensures var fields := CsvFields(line);
      ParseCsvLine(line).Some? ==>
        var f := ParseCsvLine(line).value;
        && f.locationType == Some("airport")
        && f.airportCode == Some(fields[12]) && '"' !in fields[12]
        && f.name == Some(fields[3])
        && f.country.Some? && f.country.value != []
        && (fields[8] != [] ==> f.country == Some(fields[8]))
        && f.createdAt.None? && f.updatedAt.None? && f.metadata.None?
  {
    var fields := CsvFields(line);
    CsvFieldsClean(line);
    if |fields| >= 14 {
      TrimmedIsFixed(fields[12]);
    }
  }

  /** A row written as plain comma-separated fields reads back as the airport those fields describe. */
  lemma JoinedRowParses(cols: seq<string>)
    requires |cols| >= 14
    requires forall k :: 0 <= k < |cols| ==> PlainField(cols[k])
    requires IsRelevantAirportType(cols[2]) && cols[12] != []
    requires ParseDecimal(cols[4]).Some? && ParseDecimal(cols[5]).Some?
    ensures ParseCsvLine(JoinFields(cols)) == Some(NewLocation.(
      name := Some(cols[3]),
      latitude := ParseDecimal(cols[4]),
      longitude := ParseDecimal(cols[5]),
      locationType := Some("airport"),
      airportCode := Some(cols[12]),
      country := Some(ParseCountryName(cols[8])),
      state := Some(ParseRegionName(cols[9], cols[10]))))
  {
    CsvFieldsOfJoin(cols);
    TrimmedIsFixed(cols[12]);
  }

  // ---------------------------------------------------------------------------
  // loadAirportsFromCsv

  /** BATCH_SIZE: the batch is persisted once it holds this many airports. */
  const BatchSize: nat := 100

  /** Some location in the table has this airport code: findByAirportCode finds one. */
  predicate InTable(rows: seq<LocationRow>, code: Option<string>) {
    exists i :: 0 <= i < |rows| && rows[i].airportCode == code
  }

  /** Some airport waiting in the batch has this code. */
  predicate InBatch(batch: seq<LocationFields>, code: Option<string>) {
    exists i :: 0 <= i < |batch| && batch[i].airportCode == code
  }

  /** The loader between two lines: the table, the unflushed batch and the three counters. */
  datatype Load = Load(
    rows: seq<LocationRow>,
    nextId: int,
    batch: seq<LocationFields>,
    total: nat,
    loaded: nat,
    skipped: nat)

  function Start(rows: seq<LocationRow>, nextId: int): Load {
    Load(rows, nextId, [], 0, 0, 0)
  }

  /**
   * persistBatch: each airport of the batch inserted in turn under the next identity value;
   * None as soon as the database rejects one.
   */
  function Inserted(rows: seq<LocationRow>, nextId: int, batch: seq<LocationFields>, now: DateTime): Option<seq<LocationRow>>
    decreases |batch|
  {
    if batch == [] then Some(rows)
    else
      match ToRow(Created(batch[0], now), nextId)
      case None => None
      case Some(row) => Inserted(rows + [row], nextId + 1, batch[1..], now)
  }

  /** A batch goes in whole, in order and under consecutive ids, or is rejected as a whole. */
  lemma {:induction false} InsertedRows(rows: seq<LocationRow>, nextId: int, batch: seq<LocationFields>, now: DateTime)
    ensures Inserted(rows, nextId, batch, now).Some? <==>
      forall k :: 0 <= k < |batch| ==> Insertable(Created(batch[k], now))
    ensures Inserted(rows, nextId, batch, now).Some? ==>
      var r := Inserted(rows, nextId, batch, now).value;
      && |r| == |rows| + |batch| && r[..|rows|] == rows
      && forall k :: 0 <= k < |batch| ==> r[|rows| + k] == ToRow(Created(batch[k], now), nextId + k).value
    decreases |batch|
  {
    if batch != [] {
      var first := ToRow(Created(batch[0], now), nextId);
      if first.Some? {
        var rest := batch[1..];
        InsertedRows(rows + [first.value], nextId + 1, rest, now);
        if Inserted(rows, nextId, batch, now).Some? {
          var r := Inserted(rows, nextId, batch, now).value;
          assert r[..|rows| + 1][..|rows|] == r[..|rows|];
          forall k | 0 <= k < |batch|
            ensures r[|rows| + k] == ToRow(Created(batch[k], now), nextId + k).value
          {
            if k > 0 {
              assert batch[k] == rest[k - 1];
            }
          }
        } else {
          var k :| 0 <= k < |rest| && !Insertable(Created(rest[k], now));
          assert batch[k + 1] == rest[k];
        }
      }
    }
  }

  /**
   * One data line, given as what parseCsvLine made of it. A line that does not parse, or whose code the table already holds, is
   * skipped; otherwise the airport joins the batch, and a batch that reaches BatchSize is
   * persisted and cleared. With dedupe, a code already waiting in the batch is skipped as well,
   * which the loader as written does not do. None when the database rejects an airport of the
   * batch: the load then ends in an exception.
   */
  function Step(s: Load, airport: Option<LocationFields>, now: DateTime, dedupe: bool): Option<Load> {
    match airport
    case None => Some(s.(total := s.total + 1, skipped := s.skipped + 1))
    case Some(f) =>
      if InTable(s.rows, f.airportCode) || (dedupe && InBatch(s.batch, f.airportCode)) then
        Some(s.(total := s.total + 1, skipped := s.skipped + 1))
      else if |s.batch| + 1 < BatchSize then
        Some(s.(batch := s.batch + [f], total := s.total + 1, loaded := s.loaded + 1))
      else
        match Inserted(s.rows, s.nextId, s.batch + [f], now)
        case None => None
        case Some(rows) =>
          Some(Load(rows, s.nextId + |s.batch| + 1, [], s.total + 1, s.loaded + 1, s.skipped))
  }

  /** The data lines read in order, stopping at a rejected batch. */
  function Run(s: Load, lines: seq<string>, now: DateTime, dedupe: bool): Option<Load>
    decreases |lines|
  {
    if lines == [] then Some(s)
    else
      match Run(s, lines[..|lines| - 1], now, dedupe)
      case None => None
      case Some(t) => Step(t, ParseCsvLine(lines[|lines| - 1]), now, dedupe)
  }

  /** What a load leaves: the table, the identity counter and the count it returns. */
  datatype Loaded = Loaded(rows: seq<LocationRow>, nextId: int, loaded: nat)

  /** The remaining batch persisted after the last line. */
  function Finish(t: Load, now: DateTime): Option<Loaded> {
    if t.batch == [] then Some(Loaded(t.rows, t.nextId, t.loaded))
    else
      match Inserted(t.rows, t.nextId, t.batch, now)
      case None => None
      case Some(rows) => Some(Loaded(rows, t.nextId + |t.batch|, t.loaded))
  }

  function LoadLines(rows: seq<LocationRow>, nextId: int, lines: seq<string>, now: DateTime, dedupe: bool): Option<Loaded> {
    match Run(Start(rows, nextId), lines, now, dedupe)
    case None => None
    case Some(t) => Finish(t, now)
  }

  /**
   * loadAirportsFromCsv on a file given by its lines (None when it does not exist): nothing for a
   * missing or empty file, otherwise every line after the header. None when the load throws.
   */
  function LoadFile(rows: seq<LocationRow>, nextId: int, file: Option<seq<string>>, now: DateTime, dedupe: bool): Option<Loaded> {
    if file.None? || file.value == [] then Some(Loaded(rows, nextId, 0))
    else LoadLines(rows, nextId, file.value[1..], now, dedupe)
  }

  /** The number of lines that parse into an airport. */
  function ValidLines(lines: seq<string>): nat
    decreases |lines|
  {
    if lines == [] then 0
    else ValidLines(lines[..|lines| - 1]) + (if ParseCsvLine(lines[|lines| - 1]).Some? then 1 else 0)
  }

  lemma ValidLinesSnoc(lines: seq<string>, i: int)
    requires 0 <= i < |lines|
    ensures ValidLines(lines[..i + 1]) == ValidLines(lines[..i]) + (if ParseCsvLine(lines[i]).Some? then 1 else 0)
  {
    assert lines[..i + 1][..i] == lines[..i];
  }

  function RowCodes(rows: seq<LocationRow>): (r: seq<Option<string>>)
    ensures |r| == |rows| && forall k :: 0 <= k < |rows| ==> r[k] == rows[k].airportCode
  {
    seq(|rows|, k requires 0 <= k < |rows| => rows[k].airportCode)
  }

  function FieldCodes(batch: seq<LocationFields>): (r: seq<Option<string>>)
    ensures |r| == |batch| && forall k :: 0 <= k < |batch| ==> r[k] == batch[k].airportCode
  {
    seq(|batch|, k requires 0 <= k < |batch| => batch[k].airportCode)
  }

  /** The codes of the airports loaded so far, stored or waiting in the batch, in file order. */
  function AddedCodes(rows0: seq<LocationRow>, s: Load): seq<Option<string>>
    requires |rows0| <= |s.rows|
  {
    RowCodes(s.rows[|rows0|..]) + FieldCodes(s.batch)
  }

  /** A code present and absent from the table the load started from. */
  predicate Fresh(rows0: seq<LocationRow>, code: Option<string>) {
    code.Some? && !InTable(rows0, code)
  }

  predicate Distinct(codes: seq<Option<string>>) {
    forall i, j :: 0 <= i < j < |codes| ==> codes[i] != codes[j]
  }

  /**
   * What holds between two lines of a load that started from rows0: the table only grew, by
   * whole batches of BatchSize; the batch is below BatchSize; loaded counts the stored and the
   * waiting airports, each an airport whose code the starting table did not hold; and every line
   * read was counted as loaded or skipped.
   */
  predicate Progress(rows0: seq<LocationRow>, id0: int, s: Load) {
    && |rows0| <= |s.rows| && s.rows[..|rows0|] == rows0
    && (|s.rows| - |rows0|) % BatchSize == 0 && |s.batch| < BatchSize
    && s.nextId == id0 + (|s.rows| - |rows0|)
    && s.loaded == |AddedCodes(rows0, s)|
    && s.loaded + s.skipped == s.total
    && (forall k :: 0 <= k < |AddedCodes(rows0, s)| ==> Fresh(rows0, AddedCodes(rows0, s)[k]))
    && (forall k :: |rows0| <= k < |s.rows| ==> s.rows[k].locationType == "airport")
    && (forall k :: 0 <= k < |s.batch| ==> s.batch[k].locationType == Some("airport"))
  }

  lemma StartProgress(rows0: seq<LocationRow>, id0: int)
    ensures Progress(rows0, id0, Start(rows0, id0)) && Distinct(AddedCodes(rows0, Start(rows0, id0)))
  {
    assert rows0[..|rows0|] == rows0;
    assert AddedCodes(rows0, Start(rows0, id0)) == [];
  }

  /** A stored batch only appends: the table before it is a prefix of the table after. */
  lemma InsertedPrefix(rows: seq<LocationRow>, nextId: int, batch: seq<LocationFields>, now: DateTime)
    requires Inserted(rows, nextId, batch, now).Some?
    ensures var r := Inserted(rows, nextId, batch, now).value;
      |r| == |rows| + |batch| && r[..|rows|] == rows
  {
    InsertedRows(rows, nextId, batch, now);
  }

  /** Storing a full batch moves its codes from the batch to the table, order kept. */
  lemma FlushCodes(rows0: seq<LocationRow>, s: Load, batch: seq<LocationFields>, now: DateTime)
    requires |rows0| <= |s.rows| && Inserted(s.rows, s.nextId, batch, now).Some?
    ensures var rows := Inserted(s.rows, s.nextId, batch, now).value;
      |rows0| <= |rows| && RowCodes(rows[|rows0|..]) == RowCodes(s.rows[|rows0|..]) + FieldCodes(batch)
  {
    InsertedRows(s.rows, s.nextId, batch, now);
    var rows := Inserted(s.rows, s.nextId, batch, now).value;
    var a, b := RowCodes(rows[|rows0|..]), RowCodes(s.rows[|rows0|..]) + FieldCodes(batch);
    forall k | 0 <= k < |a|
      ensures a[k] == b[k]
    {
      if k < |s.rows| - |rows0| {
        assert rows[|rows0| + k] == s.rows[|rows0| + k];
      } else {
        var j := k - (|s.rows| - |rows0|);
        assert rows[|rows0| + k] == rows[|s.rows| + j];
      }
    }
  }

  /** After a batch of airports is stored, every row added since the start is an airport. */
  lemma FlushedAirports(rows0: seq<LocationRow>, s: Load, batch: seq<LocationFields>, now: DateTime)
    requires |rows0| <= |s.rows|
    requires forall k :: |rows0| <= k < |s.rows| ==> s.rows[k].locationType == "airport"
    requires forall k :: 0 <= k < |batch| ==> batch[k].locationType == Some("airport")
    requires Inserted(s.rows, s.nextId, batch, now).Some?
    ensures var rows := Inserted(s.rows, s.nextId, batch, now).value;
      forall k :: |rows0| <= k < |rows| ==> rows[k].locationType == "airport"
  {
    InsertedRows(s.rows, s.nextId, batch, now);
    var rows := Inserted(s.rows, s.nextId, batch, now).value;
    forall k | |rows0| <= k < |rows|
      ensures rows[k].locationType == "airport"
    {
      if k >= |s.rows| {
        var j := k - |s.rows|;
        assert rows[k] == rows[|s.rows| + j];
        assert batch[j].locationType == Some("airport");
      } else {
        assert rows[k] == s.rows[k];
      }
    }
  }

  /**
   * Storing a batch of airports appends their rows: the table still starts with rows0, the codes
   * added since then gain the batch's codes, and every added row is an airport.
   */
  lemma StoreBatch(rows0: seq<LocationRow>, s: Load, batch: seq<LocationFields>, now: DateTime)
    requires |rows0| <= |s.rows| && s.rows[..|rows0|] == rows0
    requires forall k :: |rows0| <= k < |s.rows| ==> s.rows[k].locationType == "airport"
    requires forall k :: 0 <= k < |batch| ==> batch[k].locationType == Some("airport")
    requires Inserted(s.rows, s.nextId, batch, now).Some?
    ensures var rows := Inserted(s.rows, s.nextId, batch, now).value;
      && |rows| == |s.rows| + |batch| && rows[..|rows0|] == rows0
      && RowCodes(rows[|rows0|..]) == RowCodes(s.rows[|rows0|..]) + FieldCodes(batch)
      && forall k :: |rows0| <= k < |rows| ==> rows[k].locationType == "airport"
  {
    InsertedPrefix(s.rows, s.nextId, batch, now);
    var rows := Inserted(s.rows, s.nextId, batch, now).value;
    assert rows[..|s.rows|][..|rows0|] == rows[..|rows0|];
    FlushCodes(rows0, s, batch, now);
    FlushedAirports(rows0, s, batch, now);
  }

  /** A code the current table does not hold was not in the table the load started from. */
  lemma NotInPrefix(rows0: seq<LocationRow>, rows: seq<LocationRow>, code: Option<string>)
    requires |rows0| <= |rows| && rows[..|rows0|] == rows0
    requires !InTable(rows, code)
    ensures !InTable(rows0, code)
  {
    assert forall i :: 0 <= i < |rows0| ==> rows[i] == rows0[i];
  }

  /** A code in neither the table nor the batch is not among the codes loaded so far. */
  lemma NotAdded(rows0: seq<LocationRow>, s: Load, code: Option<string>)
    requires |rows0| <= |s.rows|
    requires !InTable(s.rows, code) && !InBatch(s.batch, code)
    ensures code !in AddedCodes(rows0, s)
  {
    var codes := AddedCodes(rows0, s);
    forall k | 0 <= k < |codes|
      ensures codes[k] != code
    {
      if k < |s.rows| - |rows0| {
        assert codes[k] == s.rows[|rows0| + k].airportCode;
      } else {
        assert codes[k] == s.batch[k - (|s.rows| - |rows0|)].airportCode;
      }
    }
  }

  lemma FreshAppend(rows0: seq<LocationRow>, codes: seq<Option<string>>, code: Option<string>, all: seq<Option<string>>)
    requires forall k :: 0 <= k < |codes| ==> Fresh(rows0, codes[k])
    requires Fresh(rows0, code) && all == codes + [code]
    ensures forall k :: 0 <= k < |all| ==> Fresh(rows0, all[k])
  {
    forall k | 0 <= k < |all|
      ensures Fresh(rows0, all[k])
    {
      if k < |codes| {
        assert all[k] == codes[k];
      }
    }
  }

  /** An admitted airport that leaves the batch below BatchSize waits in it. */
  lemma AppendProgress(rows0: seq<LocationRow>, id0: int, s: Load, f: LocationFields)
    requires Progress(rows0, id0, s)
    requires Fresh(rows0, f.airportCode) && f.locationType == Some("airport")
    requires |s.batch| + 1 < BatchSize
    ensures var r := s.(batch := s.batch + [f], total := s.total + 1, loaded := s.loaded + 1);
      Progress(rows0, id0, r) && AddedCodes(rows0, r) == AddedCodes(rows0, s) + [f.airportCode]
  {
    assert FieldCodes(s.batch + [f]) == FieldCodes(s.batch) + [f.airportCode];
    var r := s.(batch := s.batch + [f], total := s.total + 1, loaded := s.loaded + 1);
    FreshAppend(rows0, AddedCodes(rows0, s), f.airportCode, AddedCodes(rows0, r));
  }

  /** An admitted airport that fills the batch to BatchSize is stored with the whole batch. */
  lemma FlushProgress(rows0: seq<LocationRow>, id0: int, s: Load, f: LocationFields, now: DateTime)
    requires Progress(rows0, id0, s)
    requires Fresh(rows0, f.airportCode) && f.locationType == Some("airport")
    requires |s.batch| + 1 >= BatchSize
    requires Inserted(s.rows, s.nextId, s.batch + [f], now).Some?
    ensures var r := Load(Inserted(s.rows, s.nextId, s.batch + [f], now).value,
      s.nextId + |s.batch| + 1, [], s.total + 1, s.loaded + 1, s.skipped);
      Progress(rows0, id0, r) && AddedCodes(rows0, r) == AddedCodes(rows0, s) + [f.airportCode]
  {
    var batch := s.batch + [f];
    StoreBatch(rows0, s, batch, now);
    var rows := Inserted(s.rows, s.nextId, batch, now).value;
    assert FieldCodes(batch) == FieldCodes(s.batch) + [f.airportCode];
    var r := Load(rows, s.nextId + |s.batch| + 1, [], s.total + 1, s.loaded + 1, s.skipped);
    assert AddedCodes(rows0, r) == RowCodes(rows[|rows0|..]) + [];
    FreshAppend(rows0, AddedCodes(rows0, s), f.airportCode, AddedCodes(rows0, r));
  }

  /**
   * A line keeps the load's invariant: it is counted once, as loaded only when it parses, and an
   * admitted airport's code is added after those loaded before it.
   */
  lemma StepProgress(rows0: seq<LocationRow>, id0: int, s: Load, airport: Option<LocationFields>, now: DateTime, dedupe: bool)
    requires Progress(rows0, id0, s)
    requires airport.Some? ==> IsParsedAirport(airport.value)
    ensures var r := Step(s, airport, now, dedupe);
      r.Some? ==>
        && Progress(rows0, id0, r.value)
        && r.value.total == s.total + 1
        && s.loaded <= r.value.loaded <= s.loaded + 1
        && (r.value.loaded == s.loaded + 1 ==> airport.Some?)
        && (r.value.loaded == s.loaded ==> AddedCodes(rows0, r.value) == AddedCodes(rows0, s))
        && (r.value.loaded == s.loaded + 1 ==>
              AddedCodes(rows0, r.value) == AddedCodes(rows0, s) + [airport.value.airportCode])
  {
    if airport.Some? {
      var f := airport.value;
      if !(InTable(s.rows, f.airportCode) || (dedupe && InBatch(s.batch, f.airportCode))) {
        NotInPrefix(rows0, s.rows, f.airportCode);
        if |s.batch| + 1 < BatchSize {
          AppendProgress(rows0, id0, s, f);
        } else if Inserted(s.rows, s.nextId, s.batch + [f], now).Some? {
          FlushProgress(rows0, id0, s, f, now);
        }
      }
    }
  }

  /** With dedupe, the codes loaded so far stay pairwise distinct. */
  lemma StepDistinct(rows0: seq<LocationRow>, id0: int, s: Load, airport: Option<LocationFields>, now: DateTime)
    requires Progress(rows0, id0, s) && Distinct(AddedCodes(rows0, s))
    requires airport.Some? ==> IsParsedAirport(airport.value)
    ensures var r := Step(s, airport, now, true);
      r.Some? ==> Progress(rows0, id0, r.value) && Distinct(AddedCodes(rows0, r.value))
  {
    StepProgress(rows0, id0, s, airport, now, true);
    var r := Step(s, airport, now, true);
    if r.Some? && r.value.loaded == s.loaded + 1 {
      NotAdded(rows0, s, airport.value.airportCode);
    }
  }

  /**
   * The load's invariant holds after every prefix of the data lines: every line counted once,
   * rows stored in whole batches of BatchSize, no more airports loaded than lines parse, each of
   * them new to the starting table, and with dedupe no code loaded twice.
   */
  lemma {:induction false} RunProgress(rows0: seq<LocationRow>, id0: int, lines: seq<string>, now: DateTime, dedupe: bool)
    ensures var r := Run(Start(rows0, id0), lines, now, dedupe);
      r.Some? ==>
        && Progress(rows0, id0, r.value)
        && r.value.total == |lines|
        && r.value.loaded <= ValidLines(lines)
        && (dedupe ==> Distinct(AddedCodes(rows0, r.value)))
    decreases |lines|
  {
    if lines == [] {
      StartProgress(rows0, id0);
    } else {
      var init := lines[..|lines| - 1];
      RunProgress(rows0, id0, init, now, dedupe);
      var t := Run(Start(rows0, id0), init, now, dedupe);
      if t.Some? {
        var airport := ParseCsvLine(lines[|lines| - 1]);
        StepProgress(rows0, id0, t.value, airport, now, dedupe);
        if dedupe {
          StepDistinct(rows0, id0, t.value, airport, now);
        }
      }
    }
  }

  /** Persisting the remaining batch turns the codes loaded so far into the codes of the new rows. */
  lemma FinishProgress(rows0: seq<LocationRow>, id0: int, t: Load, now: DateTime)
    requires Progress(rows0, id0, t)
    ensures var r := Finish(t, now);
      r.Some? ==>
        && |rows0| <= |r.value.rows| && r.value.rows[..|rows0|] == rows0
        && r.value.nextId == id0 + (|r.value.rows| - |rows0|)
        && r.value.loaded == t.loaded
        && RowCodes(r.value.rows[|rows0|..]) == AddedCodes(rows0, t)
        && forall k :: |rows0| <= k < |r.value.rows| ==> r.value.rows[k].locationType == "airport"
  {
    if t.batch == [] {
      assert AddedCodes(rows0, t) == RowCodes(t.rows[|rows0|..]) + [];
    } else if Inserted(t.rows, t.nextId, t.batch, now).Some? {
      StoreBatch(rows0, t, t.batch, now);
    }
  }

  /**
   * What a whole load does: nothing for a missing or empty file; otherwise, when it does not
   * throw, it only appends rows, each an airport whose code the table did not hold before, one
   * per airport it reports as loaded, and no more than there are lines that parse. With dedupe,
   * no two of the new rows share a code.
   */
  lemma LoadAddsOnlyNewAirports(rows0: seq<LocationRow>, id0: int, file: Option<seq<string>>, now: DateTime, dedupe: bool)
    ensures file.None? || file.value == [] ==> LoadFile(rows0, id0, file, now, dedupe) == Some(Loaded(rows0, id0, 0))
    ensures var r := LoadFile(rows0, id0, file, now, dedupe);
      r.Some? ==>
        && |rows0| <= |r.value.rows| && r.value.rows[..|rows0|] == rows0
        && r.value.loaded == |r.value.rows| - |rows0|
        && r.value.nextId == id0 + r.value.loaded
        && (forall k :: |rows0| <= k < |r.value.rows| ==>
              r.value.rows[k].locationType == "airport" && Fresh(rows0, r.value.rows[k].airportCode))
        && (file.Some? && file.value != [] ==> r.value.loaded <= ValidLines(file.value[1..]))
        && (dedupe ==> Distinct(RowCodes(r.value.rows[|rows0|..])))
  {
    if file.Some? && file.value != [] {
      LinesAddOnlyNewAirports(rows0, id0, file.value[1..], now, dedupe);
    }
  }

  /** The same, for the data lines after the header. */
  lemma LinesAddOnlyNewAirports(rows0: seq<LocationRow>, id0: int, lines: seq<string>, now: DateTime, dedupe: bool)
    ensures var r := LoadLines(rows0, id0, lines, now, dedupe);
      r.Some? ==>
        && |rows0| <= |r.value.rows| && r.value.rows[..|rows0|] == rows0
        && r.value.loaded == |r.value.rows| - |rows0|
        && r.value.nextId == id0 + r.value.loaded
        && (forall k :: |rows0| <= k < |r.value.rows| ==>
              r.value.rows[k].locationType == "airport" && Fresh(rows0, r.value.rows[k].airportCode))
        && r.value.loaded <= ValidLines(lines)
        && (dedupe ==> Distinct(RowCodes(r.value.rows[|rows0|..])))
  {
    RunProgress(rows0, id0, lines, now, dedupe);
    var t := Run(Start(rows0, id0), lines, now, dedupe);
    if t.Some? {
      FinishProgress(rows0, id0, t.value, now);
      var r := Finish(t.value, now);
      if r.Some? {
        var rows := r.value.rows;
        var codes := RowCodes(rows[|rows0|..]);
        forall k | |rows0| <= k < |rows|
          ensures Fresh(rows0, rows[k].airportCode)
        {
          assert rows[k].airportCode == codes[k - |rows0|];
        }
      }
    }
  }

  // ---------------------------------------------------------------------------
  // Completeness: which airports a load stores, as a definition of its own.

  /** No two lines that parse into an airport carry the same code. */
  predicate DistinctCodes(lines: seq<string>) {
    forall i, j :: 0 <= i < j < |lines| && ParseCsvLine(lines[i]).Some? && ParseCsvLine(lines[j]).Some? ==>
      ParseCsvLine(lines[i]).value.airportCode != ParseCsvLine(lines[j]).value.airportCode
  }

  /** One line's effect on the admitted airports: a new code joins them, anything else is passed over. */
  function AdmitOne(rows0: seq<LocationRow>, before: seq<LocationFields>, airport: Option<LocationFields>): seq<LocationFields> {
    match airport
    case None => before
    case Some(f) =>
      if InTable(rows0, f.airportCode) || f.airportCode in FieldCodes(before) then before else before + [f]
  }

  /**
   * The airports a load admits, in file order: each line that parses into an airport whose code
   * is neither in the starting table nor on an airport admitted before it.
   */
  function Admitted(rows0: seq<LocationRow>, lines: seq<string>): seq<LocationFields>
    decreases |lines|
  {
    if lines == [] then []
    else AdmitOne(rows0, Admitted(rows0, lines[..|lines| - 1]), ParseCsvLine(lines[|lines| - 1]))
  }

  /**
   * rows is rows0 followed by the rows of the first admitted airports, each created at now
   * under the next id from id0.
   */
  predicate StoredAs(rows0: seq<LocationRow>, id0: int, rows: seq<LocationRow>, admitted: seq<LocationFields>, now: DateTime) {
    && |rows0| <= |rows| <= |rows0| + |admitted| && rows[..|rows0|] == rows0
    && forall k :: 0 <= k < |rows| - |rows0| ==> ToRow(Created(admitted[k], now), id0 + k) == Some(rows[|rows0| + k])
  }

  /** The loader between two lines against the admitted airports: the rest of them wait in the batch. */
  predicate Follows(rows0: seq<LocationRow>, id0: int, s: Load, admitted: seq<LocationFields>, now: DateTime) {
    && StoredAs(rows0, id0, s.rows, admitted, now)
    && s.batch == admitted[|s.rows| - |rows0|..]
    && s.nextId == id0 + (|s.rows| - |rows0|)
    && s.loaded == |admitted|
  }

  /** A stored row carries the code of the airport it was made from. */
  lemma RowCode(f: LocationFields, id: int, now: DateTime, row: LocationRow)
    requires ToRow(Created(f, now), id) == Some(row)
    ensures row.airportCode == f.airportCode
  {
  }

  /** What the loader checks a code against is the starting table and the airports admitted so far. */
  lemma FollowsCodes(rows0: seq<LocationRow>, id0: int, s: Load, admitted: seq<LocationFields>, now: DateTime, c: Option<string>)
    requires Follows(rows0, id0, s, admitted, now)
    ensures (InTable(s.rows, c) || InBatch(s.batch, c)) <==> (InTable(rows0, c) || c in FieldCodes(admitted))
    ensures InTable(rows0, c) ==> InTable(s.rows, c)
    ensures InTable(s.rows, c) ==> InTable(rows0, c) || c in FieldCodes(admitted)
  {
    TableCodes(rows0, id0, s.rows, admitted, now, c);
    if InBatch(s.batch, c) {
      var i :| 0 <= i < |s.batch| && s.batch[i].airportCode == c;
      assert FieldCodes(admitted)[|s.rows| - |rows0| + i] == c;
    }
    if c in FieldCodes(admitted) {
      AdmittedCodeSeen(rows0, id0, s, admitted, now, c);
    }
  }

  /** A code in the table is in the starting table or on a stored admitted airport, and the starting table stays. */
  lemma TableCodes(rows0: seq<LocationRow>, id0: int, rows: seq<LocationRow>, admitted: seq<LocationFields>, now: DateTime, c: Option<string>)
    requires StoredAs(rows0, id0, rows, admitted, now)
    ensures InTable(rows0, c) ==> InTable(rows, c)
    ensures InTable(rows, c) ==> InTable(rows0, c) || c in FieldCodes(admitted)
  {
    if InTable(rows, c) {
      var i :| 0 <= i < |rows| && rows[i].airportCode == c;
      if i < |rows0| {
        assert rows0[i] == rows[i];
      } else {
        RowCode(admitted[i - |rows0|], id0 + (i - |rows0|), now, rows[i]);
        assert FieldCodes(admitted)[i - |rows0|] == c;
      }
    }
    if InTable(rows0, c) {
      var i :| 0 <= i < |rows0| && rows0[i].airportCode == c;
      assert rows[i] == rows0[i];
    }
  }

  /** An admitted airport's code is in the table or in the batch. */
  lemma AdmittedCodeSeen(rows0: seq<LocationRow>, id0: int, s: Load, admitted: seq<LocationFields>, now: DateTime, c: Option<string>)
    requires Follows(rows0, id0, s, admitted, now) && c in FieldCodes(admitted)
    ensures InTable(s.rows, c) || InBatch(s.batch, c)
  {
    var m := |s.rows| - |rows0|;
    var k :| 0 <= k < |admitted| && FieldCodes(admitted)[k] == c;
    if k < m {
      RowCode(admitted[k], id0 + k, now, s.rows[|rows0| + k]);
      assert s.rows[|rows0| + k].airportCode == c;
    } else {
      assert s.batch[k - m] == admitted[k];
    }
  }

  /** Admitting one more airport keeps the rows stored so far as they were. */
  lemma StoredAsGrows(rows0: seq<LocationRow>, id0: int, rows: seq<LocationRow>, admitted: seq<LocationFields>, f: LocationFields, now: DateTime)
    requires StoredAs(rows0, id0, rows, admitted, now)
    ensures StoredAs(rows0, id0, rows, admitted + [f], now)
  {
    forall k | 0 <= k < |rows| - |rows0|
      ensures ToRow(Created((admitted + [f])[k], now), id0 + k) == Some(rows[|rows0| + k])
    {
      assert (admitted + [f])[k] == admitted[k];
    }
  }

  /** Storing the airports still waiting stores the rows of all the admitted airports. */
  lemma StoreRest(rows0: seq<LocationRow>, id0: int, rows: seq<LocationRow>, admitted: seq<LocationFields>, now: DateTime)
    requires StoredAs(rows0, id0, rows, admitted, now)
    requires Inserted(rows, id0 + (|rows| - |rows0|), admitted[|rows| - |rows0|..], now).Some?
    ensures var r := Inserted(rows, id0 + (|rows| - |rows0|), admitted[|rows| - |rows0|..], now).value;
      StoredAs(rows0, id0, r, admitted, now) && |r| == |rows0| + |admitted|
  {
    var m := |rows| - |rows0|;
    var rest := admitted[m..];
    InsertedRows(rows, id0 + m, rest, now);
    var r := Inserted(rows, id0 + m, rest, now).value;
    assert r[..|rows|][..|rows0|] == r[..|rows0|];
    forall k | 0 <= k < |r| - |rows0|
      ensures ToRow(Created(admitted[k], now), id0 + k) == Some(r[|rows0| + k])
    {
      if k < m {
        assert r[|rows0| + k] == rows[|rows0| + k];
      } else {
        var j := k - m;
        assert rest[j] == admitted[k];
        assert r[|rows0| + k] == r[|rows| + j];
        assert Insertable(Created(rest[j], now));
      }
    }
  }

  /** A line the loader admits joins the admitted airports, whether it waits or is stored with its batch. */
  lemma AdmitFollows(rows0: seq<LocationRow>, id0: int, s: Load, admitted: seq<LocationFields>, f: LocationFields, now: DateTime)
    requires Follows(rows0, id0, s, admitted, now)
    ensures var r := if |s.batch| + 1 < BatchSize then Some(s.(batch := s.batch + [f], total := s.total + 1, loaded := s.loaded + 1))
      else match Inserted(s.rows, s.nextId, s.batch + [f], now)
        case None => None
        case Some(rows) => Some(Load(rows, s.nextId + |s.batch| + 1, [], s.total + 1, s.loaded + 1, s.skipped));
      r.Some? ==> Follows(rows0, id0, r.value, admitted + [f], now)
  {
    var a := admitted + [f];
    var m := |s.rows| - |rows0|;
    StoredAsGrows(rows0, id0, s.rows, admitted, f, now);
    assert s.batch + [f] == a[m..];
    if |s.batch| + 1 >= BatchSize && Inserted(s.rows, s.nextId, s.batch + [f], now).Some? {
      StoreRest(rows0, id0, s.rows, a, now);
    }
  }

  /** A line keeps the loader in step with the admitted airports, given dedupe or a code not yet admitted. */
  lemma StepFollows(rows0: seq<LocationRow>, id0: int, s: Load, admitted: seq<LocationFields>, airport: Option<LocationFields>, now: DateTime, dedupe: bool)
    requires Follows(rows0, id0, s, admitted, now)
    requires dedupe || airport.None? || airport.value.airportCode !in FieldCodes(admitted)
    ensures var r := Step(s, airport, now, dedupe);
      r.Some? ==> Follows(rows0, id0, r.value, AdmitOne(rows0, admitted, airport), now)
  {
    if airport.Some? {
      var f := airport.value;
      FollowsCodes(rows0, id0, s, admitted, now, f.airportCode);
      AdmitFollows(rows0, id0, s, admitted, f, now);
    }
  }

  /** Every admitted airport is what some line parses into. */
  lemma {:induction false} AdmittedFromLines(rows0: seq<LocationRow>, lines: seq<string>)
    ensures forall k :: 0 <= k < |Admitted(rows0, lines)| ==>
      exists i :: 0 <= i < |lines| && ParseCsvLine(lines[i]) == Some(Admitted(rows0, lines)[k])
    decreases |lines|
  {
    if lines != [] {
      var init := lines[..|lines| - 1];
      var last := ParseCsvLine(lines[|lines| - 1]);
      AdmittedFromLines(rows0, init);
      var before := Admitted(rows0, init);
      var a := Admitted(rows0, lines);
      assert a == before || (last.Some? && a == before + [last.value]);
      forall k | 0 <= k < |a|
        ensures exists i :: 0 <= i < |lines| && ParseCsvLine(lines[i]) == Some(a[k])
      {
        if k < |before| {
          assert a[k] == before[k];
          var i :| 0 <= i < |init| && ParseCsvLine(init[i]) == Some(before[k]);
          assert lines[i] == init[i];
        } else {
          assert ParseCsvLine(lines[|lines| - 1]) == Some(a[k]);
        }
      }
    } else {
      assert Admitted(rows0, lines) == [];
    }
  }

  /** With distinct codes, the last line's code is not on any airport admitted before it. */
  lemma LastCodeNew(rows0: seq<LocationRow>, lines: seq<string>)
    requires lines != [] && DistinctCodes(lines) && ParseCsvLine(lines[|lines| - 1]).Some?
    ensures ParseCsvLine(lines[|lines| - 1]).value.airportCode !in FieldCodes(Admitted(rows0, lines[..|lines| - 1]))
  {
    var init := lines[..|lines| - 1];
    var before := Admitted(rows0, init);
    var c := ParseCsvLine(lines[|lines| - 1]).value.airportCode;
    AdmittedFromLines(rows0, init);
    forall k | 0 <= k < |before|
      ensures FieldCodes(before)[k] != c
    {
      var i :| 0 <= i < |init| && ParseCsvLine(init[i]) == Some(before[k]);
      assert lines[i] == init[i];
    }
  }

  lemma DistinctCodesPrefix(lines: seq<string>)
    requires lines != [] && DistinctCodes(lines)
    ensures DistinctCodes(lines[..|lines| - 1])
  {
    var init := lines[..|lines| - 1];
    assert forall i :: 0 <= i < |init| ==> init[i] == lines[i];
  }

  /**
   * Line by line, with dedupe or with distinct codes, the loader has admitted exactly the
   * airports Admitted names: those stored are rows in file order under consecutive ids, the rest wait in the batch.
   */
  lemma {:induction false} RunFollows(rows0: seq<LocationRow>, id0: int, lines: seq<string>, now: DateTime, dedupe: bool)
    requires dedupe || DistinctCodes(lines)
    ensures var r := Run(Start(rows0, id0), lines, now, dedupe);
      r.Some? ==> Follows(rows0, id0, r.value, Admitted(rows0, lines), now)
    decreases |lines|
  {
    if lines == [] {
      assert rows0[..|rows0|] == rows0;
    } else {
      var init := lines[..|lines| - 1];
      if !dedupe {
        DistinctCodesPrefix(lines);
      }
      RunFollows(rows0, id0, init, now, dedupe);
      var t := Run(Start(rows0, id0), init, now, dedupe);
      if t.Some? {
        var airport := ParseCsvLine(lines[|lines| - 1]);
        if !dedupe && airport.Some? {
          LastCodeNew(rows0, lines);
        }
        StepFollows(rows0, id0, t.value, Admitted(rows0, init), airport, now, dedupe);
      }
    }
  }

  /** Persisting what still waits in the batch completes the rows of all admitted airports. */
  lemma FinishFollows(rows0: seq<LocationRow>, id0: int, t: Load, admitted: seq<LocationFields>, now: DateTime)
    requires Follows(rows0, id0, t, admitted, now)
    ensures var r := Finish(t, now);
      r.Some? ==>
        && StoredAs(rows0, id0, r.value.rows, admitted, now) && |r.value.rows| == |rows0| + |admitted|
        && r.value.loaded == |admitted| && r.value.nextId == id0 + |admitted|
  {
    if t.batch != [] && Inserted(t.rows, t.nextId, t.batch, now).Some? {
      StoreRest(rows0, id0, t.rows, admitted, now);
    }
  }

  /** The same, for the data lines after the header. */
  lemma LinesStoreAdmitted(rows0: seq<LocationRow>, id0: int, lines: seq<string>, now: DateTime, dedupe: bool)
    requires dedupe || DistinctCodes(lines)
    ensures var r := LoadLines(rows0, id0, lines, now, dedupe);
      var a := Admitted(rows0, lines);
      r.Some? ==>
        && StoredAs(rows0, id0, r.value.rows, a, now) && |r.value.rows| == |rows0| + |a|
        && r.value.loaded == |a| && r.value.nextId == id0 + |a|
  {
    RunFollows(rows0, id0, lines, now, dedupe);
    var t := Run(Start(rows0, id0), lines, now, dedupe);
    if t.Some? {
      FinishFollows(rows0, id0, t.value, Admitted(rows0, lines), now);
    }
  }

  /**
   * A load with dedupe, or of a file whose airport codes are distinct, that does not throw stores
   * exactly the admitted airports: after the rows it started with, one row per admitted airport,
   * in file order under consecutive ids, and it reports that many as loaded.
   */
  lemma LoadStoresAdmitted(rows0: seq<LocationRow>, id0: int, file: Option<seq<string>>, now: DateTime, dedupe: bool)
    requires file.Some? && file.value != []
    requires dedupe || DistinctCodes(file.value[1..])
    ensures var r := LoadFile(rows0, id0, file, now, dedupe);
      var a := Admitted(rows0, file.value[1..]);
      r.Some? ==>
        && |r.value.rows| == |rows0| + |a| && r.value.rows[..|rows0|] == rows0
        && r.value.loaded == |a| && r.value.nextId == id0 + |a|
        && forall k :: 0 <= k < |a| ==> ToRow(Created(a[k], now), id0 + k) == Some(r.value.rows[|rows0| + k])
  {
    LinesStoreAdmitted(rows0, id0, file.value[1..], now, dedupe);
  }

  /** Every line that parses into an airport whose code the starting table lacks has its code admitted. */
  lemma {:induction false} AdmittedComplete(rows0: seq<LocationRow>, lines: seq<string>, i: int)
    requires 0 <= i < |lines| && ParseCsvLine(lines[i]).Some?
    requires !InTable(rows0, ParseCsvLine(lines[i]).value.airportCode)
    ensures ParseCsvLine(lines[i]).value.airportCode in FieldCodes(Admitted(rows0, lines))
    decreases |lines|
  {
    var init := lines[..|lines| - 1];
    var before := Admitted(rows0, init);
    var c := ParseCsvLine(lines[i]).value.airportCode;
    if i < |lines| - 1 {
      assert init[i] == lines[i];
      AdmittedComplete(rows0, init, i);
    }
    AdmitOneKeeps(rows0, before, ParseCsvLine(lines[|lines| - 1]));
  }

  /** Admitting a line keeps the codes admitted before it and adds the line's code unless the table holds it. */
  lemma AdmitOneKeeps(rows0: seq<LocationRow>, before: seq<LocationFields>, airport: Option<LocationFields>)
    ensures forall c :: c in FieldCodes(before) ==> c in FieldCodes(AdmitOne(rows0, before, airport))
    ensures airport.Some? && !InTable(rows0, airport.value.airportCode) ==>
      airport.value.airportCode in FieldCodes(AdmitOne(rows0, before, airport))
  {
    var a := AdmitOne(rows0, before, airport);
    if airport.Some? && a == before + [airport.value] {
      assert FieldCodes(a) == FieldCodes(before) + [airport.value.airportCode];
    }
  }

  /** With distinct codes all new to the table, every line that parses is admitted. */
  lemma {:induction false} AdmittedAllValid(rows0: seq<LocationRow>, lines: seq<string>)
    requires DistinctCodes(lines)
    requires forall i :: 0 <= i < |lines| && ParseCsvLine(lines[i]).Some? ==> !InTable(rows0, ParseCsvLine(lines[i]).value.airportCode)
    ensures |Admitted(rows0, lines)| == ValidLines(lines)
    decreases |lines|
  {
    if lines != [] {
      var init := lines[..|lines| - 1];
      DistinctCodesPrefix(lines);
      assert forall i :: 0 <= i < |init| ==> init[i] == lines[i];
      AdmittedAllValid(rows0, init);
      if ParseCsvLine(lines[|lines| - 1]).Some? {
        LastCodeNew(rows0, lines);
      }
    }
  }

  /**
   * Loading a file whose airport codes are distinct and new to the table, without an exception,
   * loads as many airports as CountValidAirports counts, with or without dedupe.
   */
  lemma DistinctFileLoadsEveryAirport(rows0: seq<LocationRow>, id0: int, file: Option<seq<string>>, now: DateTime, dedupe: bool)
    requires file.Some? && file.value != [] && DistinctCodes(file.value[1..])
    requires forall i :: 1 <= i < |file.value| && ParseCsvLine(file.value[i]).Some? ==>
      !InTable(rows0, ParseCsvLine(file.value[i]).value.airportCode)
    ensures var r := LoadFile(rows0, id0, file, now, dedupe);
      r.Some? ==> r.value.loaded == ValidLines(file.value[1..]) && |r.value.rows| == |rows0| + ValidLines(file.value[1..])
  {
    var lines := file.value[1..];
    assert forall i :: 0 <= i < |lines| ==> lines[i] == file.value[i + 1];
    AdmittedAllValid(rows0, lines);
    LoadStoresAdmitted(rows0, id0, file, now, dedupe);
  }

  /** Reading one more line is one more Step. */
  lemma RunSnoc(s: Load, lines: seq<string>, i: nat, now: DateTime, dedupe: bool)
    requires i < |lines|
    ensures Run(s, lines[..i + 1], now, dedupe) ==
      match Run(s, lines[..i], now, dedupe)
      case None => None
      case Some(t) => Step(t, ParseCsvLine(lines[i]), now, dedupe)
  {
    assert lines[..i + 1][..i] == lines[..i];
  }

  /** The same line read twice is the same Step taken twice. */
  lemma RunTwice(s: Load, line: string, now: DateTime, dedupe: bool)
    ensures Run(s, [line, line], now, dedupe) ==
      match Step(s, ParseCsvLine(line), now, dedupe)
      case None => None
      case Some(t) => Step(t, ParseCsvLine(line), now, dedupe)
  {
    assert [line][..0] == [];
    assert Run(s, [line], now, dedupe) == Step(s, ParseCsvLine(line), now, dedupe);
    assert [line, line][..1] == [line];
  }

  /** A rejected line stays rejected: no later line undoes the exception. */
  lemma {:induction false} RunStaysRejected(s: Load, lines: seq<string>, i: nat, now: DateTime, dedupe: bool)
    requires i <= |lines| && Run(s, lines[..i], now, dedupe).None?
    ensures Run(s, lines, now, dedupe).None?
    decreases |lines|
  {
    if i == |lines| {
      assert lines[..i] == lines;
    } else {
      var init := lines[..|lines| - 1];
      assert init[..i] == lines[..i];
      RunStaysRejected(s, init, i, now, dedupe);
    }
  }

  /**
   * Two lines in the same batch with one code, new to the table, are both stored: the loader
   * checks the table but not the batch still waiting to be persisted.
   */
  lemma BatchDuplicateLoadedTwice(rows0: seq<LocationRow>, id0: int, header: string, line: string, now: DateTime)
    requires ParseCsvLine(line).Some?
    requires !InTable(rows0, ParseCsvLine(line).value.airportCode)
    requires Insertable(Created(ParseCsvLine(line).value, now))
    ensures var r := LoadFile(rows0, id0, Some([header, line, line]), now, false);
      && r.Some? && r.value.loaded == 2 && |r.value.rows| == |rows0| + 2
      && r.value.rows[|rows0|].airportCode == r.value.rows[|rows0| + 1].airportCode
  {
    var f := ParseCsvLine(line).value;
    var s0 := Start(rows0, id0);
    var s1 := Load(rows0, id0, [f], 1, 1, 0);
    assert s0.batch + [f] == [f];
    assert Step(s0, Some(f), now, false) == Some(s1);
    var s2 := Load(rows0, id0, [f, f], 2, 2, 0);
    assert [f] + [f] == [f, f];
    assert Step(s1, Some(f), now, false) == Some(s2);
    RunTwice(s0, line, now, false);
    assert [header, line, line][1..] == [line, line];
    InsertedRows(rows0, id0, [f, f], now);
  }

  /** With the batch checked as well, the second line with that code is skipped. */
  lemma DeduplicatedLoadsOnce(rows0: seq<LocationRow>, id0: int, header: string, line: string, now: DateTime)
    requires ParseCsvLine(line).Some?
    requires !InTable(rows0, ParseCsvLine(line).value.airportCode)
    requires Insertable(Created(ParseCsvLine(line).value, now))
    ensures var r := LoadFile(rows0, id0, Some([header, line, line]), now, true);
      r.Some? && r.value.loaded == 1 && |r.value.rows| == |rows0| + 1
  {
    var f := ParseCsvLine(line).value;
    var s0 := Start(rows0, id0);
    var s1 := Load(rows0, id0, [f], 1, 1, 0);
    assert s0.batch + [f] == [f];
    assert Step(s0, Some(f), now, true) == Some(s1);
    assert s1.batch[0].airportCode == f.airportCode;
    var s2 := Load(rows0, id0, [f], 2, 1, 1);
    assert Step(s1, Some(f), now, true) == Some(s2);
    RunTwice(s0, line, now, true);
    assert [header, line, line][1..] == [line, line];
    InsertedRows(rows0, id0, [f], now);
  }

  /** The loader bean, over the locations table it fills. */
  class AirportCsvLoader {
    const locations: LocationRepository

    constructor(locations: LocationRepository)
      ensures this.locations == locations
    {
      this.locations := locations;
    }

    /** persistBatch: each airport of the batch persisted in turn; false at the first the database rejects. */
    method PersistBatch(batch: seq<LocationEntity>, ghost pending: seq<LocationFields>, now: DateTime) returns (ok: bool)
      requires locations.Valid()
      requires |batch| == |pending|
      requires forall k :: 0 <= k < |batch| ==> batch[k].Snapshot() == pending[k] && pending[k].id.None?
      requires forall j, k :: 0 <= j < k < |batch| ==> batch[j] != batch[k]
      modifies locations, batch
      ensures locations.Valid()
      ensures locations.nextId >= old(locations.nextId)
      ensures ok <==> Inserted(old(locations.rows), old(locations.nextId), pending, now).Some?
      ensures ok ==> locations.rows == Inserted(old(locations.rows), old(locations.nextId), pending, now).value
      ensures ok ==> locations.nextId == old(locations.nextId) + |batch|
    {
      for i := 0 to |batch|
        invariant locations.Valid()
        invariant locations.nextId == old(locations.nextId) + i
        invariant Inserted(locations.rows, locations.nextId, pending[i..], now)
          == Inserted(old(locations.rows), old(locations.nextId), pending, now)
        invariant forall k :: i <= k < |batch| ==> batch[k].Snapshot() == pending[k]
      {
        assert pending[i..][0] == pending[i] && pending[i..][1..] == pending[i + 1..];
        var persisted := locations.Persist(batch[i], now);
        if !persisted {
          return false;
        }
      }
      assert pending[|batch|..] == [];
      return true;
    }

    /**
     * The body of the read loop for one line: parse it, check the table for its code, add the
     * airport to the batch and persist the batch once it reaches BatchSize.
     */
    method ReadLine(airport: Option<LocationFields>, now: DateTime, batch: seq<LocationEntity>, ghost s: Load)
      returns (ok: bool, admitted: bool, batch': seq<LocationEntity>, ghost pending': seq<LocationFields>)
      requires locations.Valid()
      requires airport.Some? ==> IsParsedAirport(airport.value)
      requires s.rows == locations.rows && s.nextId == locations.nextId
      requires |batch| == |s.batch| && |batch| < BatchSize
      requires forall k :: 0 <= k < |batch| ==> batch[k].Snapshot() == s.batch[k] && s.batch[k].id.None?
      requires forall j, k :: 0 <= j < k < |batch| ==> batch[j] != batch[k]
      modifies locations, batch
      ensures locations.Valid() && locations.nextId >= old(locations.nextId)
      ensures var r := Step(s, airport, now, false);
        && (ok <==> r.Some?)
        && (ok ==> r.value == Load(locations.rows, locations.nextId, pending',
              s.total + 1, s.loaded + (if admitted then 1 else 0), s.skipped + (if admitted then 0 else 1)))
      ensures ok ==> |batch'| == |pending'| && |batch'| < BatchSize
      ensures ok ==> forall e :: e in batch' ==> fresh(e) || e in batch
      ensures ok ==> forall k :: 0 <= k < |batch'| ==> batch'[k].Snapshot() == pending'[k] && pending'[k].id.None?
      ensures ok ==> forall j, k :: 0 <= j < k < |batch'| ==> batch'[j] != batch'[k]
    {
      if airport.None? || locations.FindByAirportCode(airport.value.airportCode.value).Some? {
        return true, false, batch, s.batch;
      }
      ok, batch', pending' := Admit(airport.value, now, batch, s);
      admitted := true;
    }

    /** Line i of the file, read after the lines before it have left the loader in state s. */
    method ReadNext(ghost s0: Load, lines: seq<string>, i: int, now: DateTime, batch: seq<LocationEntity>, ghost s: Load)
      returns (ok: bool, admitted: bool, batch': seq<LocationEntity>, ghost s': Load)
      requires 0 <= i < |lines| && Run(s0, lines[..i], now, false) == Some(s)
      requires locations.Valid()
      requires s.rows == locations.rows && s.nextId == locations.nextId
      requires |batch| == |s.batch| && |batch| < BatchSize
      requires forall k :: 0 <= k < |batch| ==> batch[k].Snapshot() == s.batch[k] && s.batch[k].id.None?
      requires forall j, k :: 0 <= j < k < |batch| ==> batch[j] != batch[k]
      modifies locations, batch
      ensures locations.Valid() && locations.nextId >= old(locations.nextId)
      ensures !ok <==> Run(s0, lines[..i + 1], now, false).None?
      ensures ok ==> Run(s0, lines[..i + 1], now, false) == Some(s')
      ensures ok ==> && s'.rows == locations.rows && s'.nextId == locations.nextId
                     && s'.total == s.total + 1
                     && s'.loaded == s.loaded + (if admitted then 1 else 0)
                     && s'.skipped == s.skipped + (if admitted then 0 else 1)
      ensures ok ==> |batch'| == |s'.batch| && |batch'| < BatchSize
      ensures ok ==> forall e :: e in batch' ==> fresh(e) || e in batch
      ensures ok ==> forall k :: 0 <= k < |batch'| ==> batch'[k].Snapshot() == s'.batch[k] && s'.batch[k].id.None?
      ensures ok ==> forall j, k :: 0 <= j < k < |batch'| ==> batch'[j] != batch'[k]
    {
      var airport := ParseCsvLine(lines[i]);
      RunSnoc(s0, lines, i, now, false);
      ghost var pending';
      ok, admitted, batch', pending' := ReadLine(airport, now, batch, s);
      s' := Load(locations.rows, locations.nextId, pending',
                 s.total + 1, s.loaded + (if admitted then 1 else 0), s.skipped + (if admitted then 0 else 1));
    }

    /** A new airport joins the batch, and a full batch is persisted. */
    method Admit(f: LocationFields, now: DateTime, batch: seq<LocationEntity>, ghost s: Load)
      returns (ok: bool, batch': seq<LocationEntity>, ghost pending': seq<LocationFields>)
      requires locations.Valid()
      requires IsParsedAirport(f) && !InTable(s.rows, f.airportCode)
      requires s.rows == locations.rows && s.nextId == locations.nextId
      requires |batch| == |s.batch| && |batch| < BatchSize
      requires forall k :: 0 <= k < |batch| ==> batch[k].Snapshot() == s.batch[k] && s.batch[k].id.None?
      requires forall j, k :: 0 <= j < k < |batch| ==> batch[j] != batch[k]
      modifies locations, batch
      ensures locations.Valid() && locations.nextId >= old(locations.nextId)
      ensures var r := Step(s, Some(f), now, false);
        && (ok <==> r.Some?)
        && (ok ==> r.value == Load(locations.rows, locations.nextId, pending', s.total + 1, s.loaded + 1, s.skipped))
      ensures ok ==> |batch'| == |pending'| && |batch'| < BatchSize
      ensures ok ==> forall e :: e in batch' ==> fresh(e) || e in batch
      ensures ok ==> forall k :: 0 <= k < |batch'| ==> batch'[k].Snapshot() == pending'[k] && pending'[k].id.None?
      ensures ok ==> forall j, k :: 0 <= j < k < |batch'| ==> batch'[j] != batch'[k]
    {
      var entity := new LocationEntity.Load(f);
      batch', pending' := batch + [entity], s.batch + [f];
      if |batch'| >= BatchSize {
        ok := PersistBatch(batch', pending', now);
        batch', pending' := [], [];
      } else {
        ok := true;
      }
    }

    /** The read loop of loadAirportsFromCsv over the data lines, then the remaining batch. */
    method Import(lines: seq<string>, now: DateTime) returns (ok: bool, loaded: nat)
      requires locations.Valid()
      modifies locations
      ensures locations.Valid()
      ensures locations.nextId >= old(locations.nextId)
      ensures var r := LoadLines(old(locations.rows), old(locations.nextId), lines, now, false);
        && (ok <==> r.Some?)
        && (ok ==> locations.rows == r.value.rows && locations.nextId == r.value.nextId && loaded == r.value.loaded)
    {
      ghost var rows0, id0 := locations.rows, locations.nextId;
      var batch;
      ghost var pending, t;
      ok, batch, loaded, pending, t := ReadAll(lines, now);
      if !ok {
        return;
      }
      if batch != [] {
        assert forall k :: 0 <= k < |batch| ==> fresh(batch[k]) by {
          forall k | 0 <= k < |batch| ensures fresh(batch[k]) { assert batch[k] in batch; }
        }
        ok := PersistBatch(batch, pending, now);
      }
    }

    /** The read loop itself: the loader's state after the last line, unless a batch was rejected. */
    method ReadAll(lines: seq<string>, now: DateTime)
      returns (ok: bool, batch: seq<LocationEntity>, loaded: nat, ghost pending: seq<LocationFields>, ghost t: Load)
      requires locations.Valid()
      modifies locations
      ensures locations.Valid() && locations.nextId >= old(locations.nextId)
      ensures var r := Run(Start(old(locations.rows), old(locations.nextId)), lines, now, false);
        && (ok <==> r.Some?)
        && (ok ==> r.value == t && t.rows == locations.rows && t.nextId == locations.nextId && t.batch == pending && t.loaded == loaded)
      ensures ok ==> |batch| == |pending| && |batch| < BatchSize
      ensures ok ==> forall e :: e in batch ==> fresh(e)
      ensures ok ==> forall k :: 0 <= k < |batch| ==> batch[k].Snapshot() == pending[k] && pending[k].id.None?
      ensures ok ==> forall j, k :: 0 <= j < k < |batch| ==> batch[j] != batch[k]
    {
      ghost var s0 := Start(locations.rows, locations.nextId);
      t := s0;
      batch := [];
      var total, loadedCount, skipped := 0, 0, 0;
      for i := 0 to |lines|
        invariant locations.Valid() && locations.nextId >= s0.nextId
        invariant Run(s0, lines[..i], now, false) == Some(t)
        invariant t.rows == locations.rows && t.nextId == locations.nextId
        invariant t.total == total && t.loaded == loadedCount && t.skipped == skipped
        invariant |batch| == |t.batch| && |batch| < BatchSize
        invariant forall e :: e in batch ==> fresh(e)
        invariant forall k :: 0 <= k < |batch| ==> batch[k].Snapshot() == t.batch[k] && t.batch[k].id.None?
        invariant forall j, k :: 0 <= j < k < |batch| ==> batch[j] != batch[k]
      {
        var read, admitted;
        assert forall k :: 0 <= k < |batch| ==> fresh(batch[k]) by {
          forall k | 0 <= k < |batch| ensures fresh(batch[k]) { assert batch[k] in batch; }
        }
        read, admitted, batch, t := ReadNext(s0, lines, i, now, batch, t);
        if !read {
          RunStaysRejected(s0, lines, i + 1, now, false);
          return false, batch, loadedCount, t.batch, t;
        }
        total := total + 1;
        if admitted {
          loadedCount := loadedCount + 1;
        } else {
          skipped := skipped + 1;
        }
      }
      assert lines[..|lines|] == lines;
      ok, loaded, pending := true, loadedCount, t.batch;
    }

    /**
     * loadAirportsFromCsv in its own transaction: nothing for a missing or empty file; a rejected
     * batch or a failed commit rolls every inserted airport back and the call throws.
     */
    method LoadAirportsFromCsv(file: Option<seq<string>>, now: DateTime, commitFails: bool) returns (loaded: nat, threw: bool)
      requires locations.Valid()
      modifies locations
      ensures locations.Valid()
      ensures var r := LoadFile(old(locations.rows), old(locations.nextId), file, now, false);
        && threw == (r.None? || commitFails)
        && (threw ==> locations.rows == old(locations.rows))
        && (!threw ==> locations.rows == r.value.rows && locations.nextId == r.value.nextId && loaded == r.value.loaded)
    {
      if file.None? || file.value == [] {
        return 0, commitFails;
      }
      var saved := locations.rows;
      var ok;
      ok, loaded := Import(file.value[1..], now);
      threw := !ok || commitFails;
      if threw {
        locations.rows := saved;
      }
    }

    /** countValidAirports: the data lines that parse into an airport, 0 for a missing or empty file. */
    method CountValidAirports(file: Option<seq<string>>) returns (count: nat)
      ensures count == if file.None? || file.value == [] then 0 else ValidLines(file.value[1..])
    {
      count := 0;
      if file.None? || file.value == [] {
        return;
      }
      var lines := file.value[1..];
      for i := 0 to |lines|
        invariant count == ValidLines(lines[..i])
      {
        var airport := ParseCsvLine(lines[i]);
        ValidLinesSnoc(lines, i);
        if airport.Some? {
          count := count + 1;
        }
      }
      assert lines[..|lines|] == lines;
    }
  }
}
