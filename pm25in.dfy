/**
 * The pm25in adapter: one page per city, a `.live_data_time` label handed
 * whole to `getDate`, a `.city_name` label and a `#detail-data` table with
 * one row per station (the first row included); child 0 is the station
 * name, children 4 to 8 and 10 hold pm25, pm10, co, no2, o3 and so2
 * (child 9, the 8-hour ozone average, is not read).
 */
module Pm25In {
  import opened Util
  import opened JsRegex
  import opened JsNumber
  import opened Measurements

  /** `values.pm25 = entries[4]` ... `values.so2 = entries[10]`, in the order the keys are added. */
  const Columns: seq<Column> :=
    [Column(Pm25, 4), Column(Pm10, 5), Column(Co, 6), Column(No2, 7), Column(O3, 8), Column(So2, 10)]

  const Attributions: seq<Attribution> := [Attribution("PM25.in from BestApp", "http://pm25.in")]

  /** `getCoordinates(city, station)`: the table is keyed by the city and station names run together. */
  function GetCoordinates(locations: map<string, (real, real)>, city: string, station: string): (r: Option<Coordinates>)
    ensures r.Some? <==> city + station in locations
    ensures r.Some? ==> r.value == Coordinates(locations[city + station].1, locations[city + station].0)
  {
    Lookup(locations, city + station)
  }

  /** The city name: the `.city_name` text cleaned like every other text. */
  function City(page: Page): (city: string)
    ensures |city| <= |page.cityLabel|
    ensures NonSpace(city) == NonSpace(DropEscapes(page.cityLabel))
    ensures NoEscape(page.cityLabel) ==> NonSpace(city) == NonSpace(page.cityLabel)
  {
    StripKeepsNonSpace(page.cityLabel);
    assert NoEscape(page.cityLabel) ==> DropEscapes(page.cityLabel) == page.cityLabel by {
      if NoEscape(page.cityLabel) {
        DropEscapesKeeps(page.cityLabel);
      }
    }
    StripBreaks(page.cityLabel)
  }

  /** What every row of a run shares. */
  function RowProfile(city: string, date: DateStamp, libs: Libs): Profile {
    Profile(Columns, NumericText, city, date, Attributions, libs)
  }

  /** Every mapped child is present and has a first child with `data`; child 9 may be anything. */
  predicate Complete(row: Row) {
    |row| >= 11 && row[10].firstText.Some? && forall k :: 4 <= k <= 8 ==> row[k].firstText.Some?
  }

  /** `formatData`, as a function of the selected page. */
  function Format(page: Page, libs: Libs): FormatOutcome {
    var ms := EmitRows(RowProfile(City(page), libs.getDate(page.dateLabel), libs), page.rows);
    if ms.None? then Threw else Returned(Some(Formatted("unused", ms.value)))
  }

  lemma ColumnsDistinct()
    ensures DistinctParameters(Columns)
  {
  }

  lemma CompleteIsReadable(row: Row)
    ensures Complete(row) <==> forall j :: 0 <= j < |Columns| ==> Readable(row, Columns[j].index)
  {
    if forall j :: 0 <= j < |Columns| ==> Readable(row, Columns[j].index) {
      assert Readable(row, Columns[5].index);
      forall k | 4 <= k <= 8 ensures row[k].firstText.Some? {
        assert Readable(row, Columns[k - 4].index);
      }
    }
    if Complete(row) {
      forall j | 0 <= j < |Columns| ensures Readable(row, Columns[j].index) {
        assert Columns[j].index == if j == 5 then 10 else j + 4;
      }
    }
  }

  /** `children[0].data` of the child that column `j` maps, in a complete row. */
  function CellText(row: Row, j: nat): string
    requires Complete(row) && j < |Columns|
  {
    CompleteIsReadable(row);
    CellData(row, Columns[j])
  }

  /**
   * `formatData` of adapters/pm25in.js (lines 65-131): the date label goes
   * to `getDate` as it is, the city name is cleaned, and every row of the
   * table is handed to the row loop; a row that throws ends the run.
   */
  method FormatData(page: Page, libs: Libs) returns (r: FormatOutcome)
    ensures r == Format(page, libs)
  {
    var date := libs.getDate(page.dateLabel);
    var thisCity := StripBreaks(page.cityLabel);
    var found := FormatRows(thisCity, date, libs, page.rows);
    if found.None? {
      return Threw;
    }
    return Returned(Some(Formatted("unused", found.value)));
  }

  /**
   * The row loop of `formatData`: each row's measurements are appended in
   * document order; a row that throws ends the run (None).
   */
  method FormatRows(thisCity: string, date: DateStamp, libs: Libs, rows: seq<Row>) returns (found: Option<seq<Measurement>>)
    ensures found == EmitRows(RowProfile(thisCity, date, libs), rows)
  {
    ghost var profile := RowProfile(thisCity, date, libs);
    var measurements: seq<Measurement> := [];
    var i := 0;
    while i < |rows|
      invariant 0 <= i <= |rows|
      invariant EmitRows(profile, rows[..i]) == Some(measurements)
    {
      var next := FormatRow(thisCity, date, libs, rows[i]);
      EmitRowsStep(profile, rows, i, measurements, next);
      if next.None? {
        return None;
      }
      measurements := measurements + next.value;
      i := i + 1;
    }
    assert rows[..i] == rows;
    return Some(measurements);
  }

  /**
   * The key loop of `formatData` for one station row: each mapped cell is
   * read in turn and its measurement, if any, appended; a missing cell or
   * one whose first child has no `data` throws (None).
   */
  method FormatRow(thisCity: string, date: DateStamp, libs: Libs, entries: Row) returns (found: Option<seq<Measurement>>)
    ensures found == EmitRow(RowProfile(thisCity, date, libs), entries)
  {
    ghost var profile := RowProfile(thisCity, date, libs);
    var stationName := StripBreaks(StationText(entries));
    var measurements: seq<Measurement> := [];
    var k := 0;
    while k < |Columns|
      invariant 0 <= k <= |Columns|
      invariant EmitColumns(profile, entries, Columns[..k]) == Some(measurements)
    {
      var cell := FormatCell(thisCity, date, libs, entries, stationName, Columns[k]);
      if cell.None? {
        EmitColumnsUnreadable(profile, entries, Columns, k);
        return None;
      }
      EmitColumnsAdd(profile, entries, Columns, k, measurements, cell.value);
      measurements := measurements + cell.value;
      k := k + 1;
    }
    assert Columns[..k] == Columns;
    return Some(measurements);
  }

  /**
   * One pass of the key loop: the cell is cleaned and kept unless `isNaN`,
   * CO times 1000; reading a missing cell or one whose first child has no
   * `data` throws (None).
   */
  method FormatCell(thisCity: string, date: DateStamp, libs: Libs, entries: Row, stationName: string, col: Column)
    returns (found: Option<seq<Measurement>>)
    requires stationName == Station(entries)
    ensures found == EmitColumn(RowProfile(thisCity, date, libs), entries, col)
  {
    ghost var profile := RowProfile(thisCity, date, libs);
    if col.index >= |entries| || entries[col.index].firstText.None? {
      return None;
    }
    var value := StripBreaks(entries[col.index].firstText.value);
    assert profile.read(CellData(entries, col)) == NumericText(entries[col.index].firstText.value);
    if IsNaN(value) {
      ColumnDropped(profile, entries, col);
      return Some([]);
    }
    var v := ParseFloat(value);
    ColumnKept(profile, entries, col, v);
    if col.parameter == Co {
      v := TimesThousand(v);
    }
    var obj := Measurement(libs.tr(thisCity + stationName), col.parameter, Unit, Hourly, date, v,
                           Attributions, GetCoordinates(libs.locations, thisCity, stationName));
    assert v == InMicrograms(col.parameter, ParseFloat(value));
    assert obj == Measure(profile, entries, col.parameter, ParseFloat(value)) by {
      assert GetCoordinates(libs.locations, thisCity, stationName) == Lookup(libs.locations, thisCity + stationName);
    }
    return Some([obj]);
  }

  /**
   * `fetchData`: a transport error or a status other than 200 is a load
   * failure; otherwise the page is formatted, an exception becoming the
   * generic adapter error. The parse-failure branch is never taken.
   */
  method FetchData(response: Response, libs: Libs) returns (r: CallbackResult)
    ensures !Loaded(response) ==> r == Failed(LoadFailure)
    ensures Loaded(response) ==> r == Settle(Format(response.body, libs))
    ensures Loaded(response) ==>
      (r == Failed(UnknownError) <==>
        exists i :: 0 <= i < |response.body.rows| && !Complete(response.body.rows[i]))
    ensures r != Failed(ParseFailure)
  {
    if response.TransportError? || response.statusCode != 200 {
      return Failed(LoadFailure);
    }
    var data := FormatData(response.body, libs);
    FormatThrows(response.body, libs);
    r := Settle(data);
  }

  // ---------------------------------------------------------------------
  // Properties
  // ---------------------------------------------------------------------

  /** A row throws exactly when it is not complete. */
  lemma RowThrows(profile: Profile, row: Row)
    requires profile.columns == Columns
    ensures EmitRow(profile, row).None? <==> !Complete(row)
  {
    EmitColumnsThrows(profile, row, Columns);
    CompleteIsReadable(row);
  }

  /** A run throws exactly when some row is incomplete; the date never makes it throw. */
  lemma FormatThrows(page: Page, libs: Libs)
    ensures Format(page, libs) == Threw <==> exists i :: 0 <= i < |page.rows| && !Complete(page.rows[i])
    ensures Format(page, libs) != Returned(None)
  {
    var profile := RowProfile(City(page), libs.getDate(page.dateLabel), libs);
    EmitRowsThrows(profile, page.rows);
    forall i | 0 <= i < |page.rows| ensures EmitRow(profile, page.rows[i]).None? <==> !Complete(page.rows[i]) {
      RowThrows(profile, page.rows[i]);
    }
  }

  /**
   * No row is skipped: a first row that is a header (fewer than eleven
   * children, or a mapped child whose first child has no `data`) makes the run throw.
   */
  lemma HeaderRowThrows(page: Page, libs: Libs)
    requires page.rows != [] && !Complete(page.rows[0])
    ensures Format(page, libs) == Threw
  {
    FormatThrows(page, libs);
  }

  /** Child 9, the 8-hour ozone average, is never read: replacing it changes nothing. */
  lemma EightHourOzoneIgnored(profile: Profile, row: Row, cell: Cell)
    requires profile.columns == Columns && |row| > 9
    ensures EmitRow(profile, row[9 := cell]) == EmitRow(profile, row)
  {
    var other := row[9 := cell];
    assert StationText(other) == StationText(row);
    forall j | 0 <= j < |Columns| ensures Readable(other, Columns[j].index) == Readable(row, Columns[j].index) {
      assert Columns[j].index != 9;
    }
    forall j | 0 <= j < |Columns| && Readable(row, Columns[j].index)
      ensures CellData(other, Columns[j]) == CellData(row, Columns[j])
    {
      assert Columns[j].index != 9;
    }
    SameCells(profile, row, other, Columns);
  }

  /** Two rows with the same station text and the same mapped cells emit the same. */
  lemma {:induction false} SameCells(profile: Profile, row: Row, other: Row, cols: seq<Column>)
    requires StationText(other) == StationText(row)
    requires forall j :: 0 <= j < |cols| ==> Readable(other, cols[j].index) == Readable(row, cols[j].index)
    requires forall j :: 0 <= j < |cols| && Readable(row, cols[j].index) ==> CellData(other, cols[j]) == CellData(row, cols[j])
    ensures EmitColumns(profile, other, cols) == EmitColumns(profile, row, cols)
    decreases |cols|
  {
    if cols != [] {
      var n := |cols| - 1;
      assert forall j :: 0 <= j < n ==> cols[..n][j] == cols[j];
      SameCells(profile, row, other, cols[..n]);
      assert Station(other) == Station(row);
      assert EmitColumn(profile, other, cols[n]) == EmitColumn(profile, row, cols[n]);
    }
  }

  /**
   * The shape of what one complete row emits: at most six measurements, in
   * the order pm25, pm10, co, no2, o3, so2, each with the fixed unit, period
   * and attribution, the run's date, `tr(city + station)` as location and
   * the coordinates keyed by city + station.
   */
  lemma RowShape(city: string, date: DateStamp, libs: Libs, row: Row)
    requires Complete(row)
    ensures EmitRow(RowProfile(city, date, libs), row).Some?
    ensures var ms := EmitRow(RowProfile(city, date, libs), row).value;
      && |ms| <= 6
      && (forall m :: m in ms ==>
            && m.unit == Unit && m.averagingPeriod == Hourly && m.date == date && m.attribution == Attributions
            && m.location == libs.tr(city + Station(row))
            && m.coordinates == GetCoordinates(libs.locations, city, Station(row)))
      && Ordered(ms, Columns)
  {
    var profile := RowProfile(city, date, libs);
    CompleteIsReadable(row);
    ColumnsDistinct();
    EmitColumnsFields(profile, row, Columns);
    EmitColumnsOrdered(profile, row, Columns);
  }

  /**
   * The readings of one complete row: the measurement for the parameter of
   * column j is there exactly when the cleaned cell text is not `isNaN`, and
   * carries `parseFloat` of that text, times 1000 for CO.
   */
  lemma RowReadings(city: string, date: DateStamp, libs: Libs, row: Row, j: nat)
    requires Complete(row) && j < 6
    ensures EmitRow(RowProfile(city, date, libs), row).Some?
    ensures var ms := EmitRow(RowProfile(city, date, libs), row).value;
      var text := StripBreaks(CellText(row, j));
      && ((exists m :: m in ms && m.parameter == Columns[j].parameter) <==> !IsNaN(text))
      && (forall m :: m in ms && m.parameter == Columns[j].parameter ==>
            m.value == InMicrograms(m.parameter, ParseFloat(text)))
  {
    var profile := RowProfile(city, date, libs);
    CompleteIsReadable(row);
    ColumnsDistinct();
    EmitColumnsPresent(profile, row, Columns);
    EmitColumnsValued(profile, row, Columns);
  }

  /** What a whole run emits: every measurement carries `getDate` of the raw label and the fixed fields, and comes from one of the rows. */
  lemma FormatFields(page: Page, libs: Libs)
    requires Format(page, libs).Returned?
    ensures Format(page, libs).data.Some?
    ensures var f := Format(page, libs).data.value;
      && f.name == "unused"
      && |f.measurements| <= 6 * |page.rows|
      && forall m :: m in f.measurements ==>
          && m.unit == Unit && m.averagingPeriod == Hourly && m.date == libs.getDate(page.dateLabel)
          && m.attribution == Attributions
          && exists i :: (0 <= i < |page.rows|
               && m.location == libs.tr(City(page) + Station(page.rows[i]))
               && m.coordinates == GetCoordinates(libs.locations, City(page), Station(page.rows[i])))
  {
    var profile := RowProfile(City(page), libs.getDate(page.dateLabel), libs);
    var ms := EmitRows(profile, page.rows).value;
    EmitRowsCount(profile, page.rows);
    forall m | m in ms
      ensures exists i :: (0 <= i < |page.rows|
        && m.location == libs.tr(City(page) + Station(page.rows[i]))
        && m.coordinates == GetCoordinates(libs.locations, City(page), Station(page.rows[i])))
    {
      EmitRowsFields(profile, page.rows, m);
    }
    forall m | m in ms ensures m.unit == Unit && m.averagingPeriod == Hourly && m.date == profile.date && m.attribution == Attributions {
      EmitRowsFields(profile, page.rows, m);
    }
  }

  /** Rows are emitted in document order: a page whose rows are `a + b` emits the measurements of `a`, then those of `b`. */
  lemma RowsInOrder(page: Page, libs: Libs, a: seq<Row>, b: seq<Row>)
    requires page.rows == a + b
    requires Format(page, libs).Returned?
    ensures Format(page.(rows := a), libs).Returned? && Format(page.(rows := b), libs).Returned?
    ensures Format(page, libs).data.value.measurements ==
      Format(page.(rows := a), libs).data.value.measurements + Format(page.(rows := b), libs).data.value.measurements
  {
    var profile := RowProfile(City(page), libs.getDate(page.dateLabel), libs);
    EmitRowsAppend(profile, a, b);
  }
}
