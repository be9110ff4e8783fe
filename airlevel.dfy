/**
 * The airlevel adapter: one page whose `.label-info` text holds the
 * measurement time as digit runs (year, month, day, hour, minute) and whose
 * `.text-center` table has a header row followed by one row per station;
 * child 0 is the station name, children 3 and 4 hold pm25 and pm10. A cell
 * reading is the first run of digits in the cell's text.
 */
module AirLevel {
  import opened Util
  import opened JsRegex
  import opened JsNumber
  import opened Measurements

  /** `values.pm25 = entries[3]`, `values.pm10 = entries[4]`. */
  const Columns: seq<Column> := [Column(Pm25, 3), Column(Pm10, 4)]

  const Attributions: seq<Attribution> := [Attribution("Air Level", "air-level.com")]

  /**
   * `time[1] + '/' + time[2] + '/' + time[0] + ' ' + time[3] + ':' + time[4] + ':00'`
   * over the digit runs of the label; None when the label has no digit (then
   * `match` returns null and indexing it throws).
   */
  function AssembleDate(dateText: string): (r: Option<string>)
    ensures r.None? <==> NoDigit(dateText)
  {
    var time := DigitRuns(dateText);
    if time == [] then None else Some(DateOfRuns(time))
  }

  function DateOfRuns(time: seq<string>): string {
    MatchAt(time, 1) + "/" + MatchAt(time, 2) + "/" + MatchAt(time, 0) + " "
      + MatchAt(time, 3) + ":" + MatchAt(time, 4) + ":00"
  }

  /** `getCoordinates(station)`: the table is keyed by the station name alone. */
  function GetCoordinates(locations: map<string, (real, real)>, station: string): (r: Option<Coordinates>)
    ensures r.Some? <==> station in locations
    ensures r.Some? ==> r.value == Coordinates(locations[station].1, locations[station].0)
  {
    Lookup(locations, station)
  }

  /**
   * A cell's reading: `match(/\d+/)` takes the first run of digits, and
   * `parseFloat` of it is the run's decimal value. A cell without a digit
   * gives null, which `isNaN` lets through (null converts to 0) but the
   * explicit null test drops.
   */
  function DigitReading(data: string): (r: Option<Number>)
    ensures r.None? <==> NoDigit(data)
    ensures r.Some? ==> r.value == Finite(DigitsValue(FirstDigitRun(data).value) as real)
  {
    match FirstDigitRun(data)
    case None => None
    case Some(run) =>
      Numeral(run);
      if IsNaN(run) then None else Some(ParseFloat(run))
  }

  /** What every row of a run shares; the location key is the station name alone. */
  function RowProfile(date: DateStamp, libs: Libs): Profile {
    Profile(Columns, DigitReading, "", date, Attributions, libs)
  }

  /** Both mapped children are present and have a first child with `data`. */
  predicate Complete(row: Row) {
    |row| >= 5 && row[3].firstText.Some? && row[4].firstText.Some?
  }

  /** The rows the `each` callback handles: all but the first (`i !== 0`), which holds the headers. */
  function DataRows(rows: seq<Row>): seq<Row> {
    if rows == [] then [] else rows[1..]
  }

  /** Row `i` (after the header) extends the data rows of the first `i` rows; it is data row `i - 1`. */
  lemma DataRowsStep(rows: seq<Row>, i: nat)
    requires 1 <= i < |rows|
    ensures DataRows(rows)[..i - 1] == DataRows(rows[..i])
    ensures DataRows(rows)[..i] == DataRows(rows[..i + 1])
    ensures DataRows(rows)[i - 1] == rows[i]
  {
    assert rows[1..][..i - 1] == rows[..i][1..];
    assert rows[1..][..i] == rows[..i + 1][1..];
  }

  /** The data rows under a header are the rows after it. */
  lemma DataRowsAfterHeader(header: Row, rest: seq<Row>)
    ensures DataRows([header] + rest) == rest
  {
    assert ([header] + rest)[1..] == rest;
  }

  /** `formatData`, as a function of the selected page. */
  function Format(page: Page, libs: Libs): FormatOutcome {
    match AssembleDate(page.dateLabel)
    case None => Threw
    case Some(time) =>
      var ms := EmitRows(RowProfile(libs.getDate(time), libs), DataRows(page.rows));
      if ms.None? then Threw else Returned(Some(Formatted("unused", ms.value)))
  }

  /** A run that returns has a date, and returns the measurements of its data rows. */
  lemma FormatReturns(page: Page, libs: Libs)
    requires Format(page, libs).Returned?
    ensures AssembleDate(page.dateLabel).Some?
    ensures var ms := EmitRows(RowProfile(libs.getDate(AssembleDate(page.dateLabel).value), libs), DataRows(page.rows));
      ms.Some? && Format(page, libs) == Returned(Some(Formatted("unused", ms.value)))
  {
  }

  lemma ColumnsDistinct()
    ensures DistinctParameters(Columns)
  {
  }

  lemma CompleteIsReadable(row: Row)
    ensures Complete(row) <==> forall j :: 0 <= j < |Columns| ==> Readable(row, Columns[j].index)
  {
    if forall j :: 0 <= j < |Columns| ==> Readable(row, Columns[j].index) {
      assert Readable(row, Columns[0].index) && Readable(row, Columns[1].index);
    }
  }

  /** `children[0].data` of the child that column `j` maps, in a complete row. */
  function CellText(row: Row, j: nat): string
    requires Complete(row) && j < |Columns|
  {
    CompleteIsReadable(row);
    CellData(row, Columns[j])
  }

  /**
   * `formatData` of adapters/airlevel.js (lines 64-132): the date label is
   * reassembled (a label without digits throws) and the rows handed to the
   * row loop, which skips the header; a row that throws ends the run.
   */
  method FormatData(page: Page, libs: Libs) returns (r: FormatOutcome)
    ensures r == Format(page, libs)
  {
    var time := AssembleDate(page.dateLabel);
    if time.None? {
      return Threw;
    }
    var date := libs.getDate(time.value);
    var found := FormatRows(date, libs, page.rows);
    if found.None? {
      return Threw;
    }
    return Returned(Some(Formatted("unused", found.value)));
  }

  /**
   * The `each` callback over the table rows: the first row (`i === 0`) is
   * skipped, every other row's measurements are appended in document order;
   * a row that throws ends the run (None).
   */
  method FormatRows(date: DateStamp, libs: Libs, rows: seq<Row>) returns (found: Option<seq<Measurement>>)
    ensures found == EmitRows(RowProfile(date, libs), DataRows(rows))
  {
    ghost var profile := RowProfile(date, libs);
    var measurements: seq<Measurement> := [];
    var i := 0;
    while i < |rows|
      invariant 0 <= i <= |rows|
      invariant EmitRows(profile, DataRows(rows[..i])) == Some(measurements)
    {
      if i != 0 {
        var next := FormatRow(date, libs, rows[i]);
        DataRowsStep(rows, i);
        EmitRowsStep(profile, DataRows(rows), i - 1, measurements, next);
        if next.None? {
          return None;
        }
        measurements := measurements + next.value;
      } else {
        assert DataRows(rows[..1]) == [];
      }
      i := i + 1;
    }
    assert rows[..i] == rows;
    return Some(measurements);
  }

  /**
   * The key loop of `formatData` for one station row: each mapped cell is
   * read in turn and its measurement, if any, appended; a missing cell or
   * one whose first child has no `data` throws (None).
   */
  method FormatRow(date: DateStamp, libs: Libs, entries: Row) returns (found: Option<seq<Measurement>>)
    ensures found == EmitRow(RowProfile(date, libs), entries)
  {
    ghost var profile := RowProfile(date, libs);
    var stationName := StripBreaks(StationText(entries));
    var measurements: seq<Measurement> := [];
    var k := 0;
    while k < |Columns|
      invariant 0 <= k <= |Columns|
      invariant EmitColumns(profile, entries, Columns[..k]) == Some(measurements)
    {
      var cell := FormatCell(date, libs, entries, stationName, Columns[k]);
      if cell.None? {
        EmitColumnsUnreadable(profile, entries, Columns, k);
        return None;
      }
      EmitColumnsAdd(profile, entries, Columns, k, measurements, cell.value);
      measurements := measurements + cell.value;
      k := k + 1;
    }
    assert Columns[..k] == Columns;
    return Some(measurements);
  }

  /**
   * One pass of the key loop: the cell's first digit run is kept when there
   * is one, CO times 1000; reading a missing cell or one whose first child
   * has no `data` throws (None).
   */
  method FormatCell(date: DateStamp, libs: Libs, entries: Row, stationName: string, col: Column)
    returns (found: Option<seq<Measurement>>)
    requires stationName == Station(entries)
    ensures found == EmitColumn(RowProfile(date, libs), entries, col)
  {
    ghost var profile := RowProfile(date, libs);
    assert profile.prefix + stationName == stationName;
    if col.index >= |entries| || entries[col.index].firstText.None? {
      return None;
    }
    var value := FirstDigitRun(entries[col.index].firstText.value);
    // `isNaN(null)` is false: the null test is what drops a cell without digits.
    if value.None? || IsNaN(value.value) {
      assert EmitColumn(profile, entries, col) == Some([]);
      return Some([]);
    }
    var v := ParseFloat(value.value);
    if col.parameter == Co {
      v := TimesThousand(v);
    }
    var obj := Measurement(libs.tr(stationName), col.parameter, Unit, Hourly, date, v,
                           Attributions, GetCoordinates(libs.locations, stationName));
    assert EmitColumn(profile, entries, col) == Some([obj]);
    return Some([obj]);
  }

  /**
   * `fetchData`: a transport error or a status other than 200 is a load
   * failure; otherwise the page is formatted, an exception becoming the
   * generic adapter error. The parse-failure branch is never taken.
   */
  method FetchData(response: Response, libs: Libs) returns (r: CallbackResult)
    ensures !Loaded(response) ==> r == Failed(LoadFailure)
    ensures Loaded(response) ==> r == Settle(Format(response.body, libs))
    ensures Loaded(response) ==>
      (r == Failed(UnknownError) <==>
        NoDigit(response.body.dateLabel)
        || exists i :: 1 <= i < |response.body.rows| && !Complete(response.body.rows[i]))
    ensures r != Failed(ParseFailure)
  {
    if response.TransportError? || response.statusCode != 200 {
      return Failed(LoadFailure);
    }
    var data := FormatData(response.body, libs);
    FormatThrows(response.body, libs);
    r := Settle(data);
  }

  // ---------------------------------------------------------------------
  // Properties
  // ---------------------------------------------------------------------

  /** A row throws exactly when it is not complete. */
  lemma RowThrows(profile: Profile, row: Row)
    requires profile.columns == Columns
    ensures EmitRow(profile, row).None? <==> !Complete(row)
  {
    EmitColumnsThrows(profile, row, Columns);
    CompleteIsReadable(row);
  }

  /**
   * A run throws exactly when the label has no digit or some row after the
   * header is incomplete; the header row itself is never read.
   */
  lemma FormatThrows(page: Page, libs: Libs)
    ensures Format(page, libs) == Threw <==>
      NoDigit(page.dateLabel) || exists i :: 1 <= i < |page.rows| && !Complete(page.rows[i])
    ensures Format(page, libs) != Returned(None)
  {
    var time := AssembleDate(page.dateLabel);
    if time.Some? {
      var profile := RowProfile(libs.getDate(time.value), libs);
      var data := DataRows(page.rows);
      EmitRowsThrows(profile, data);
      forall i | 0 <= i < |data| ensures EmitRow(profile, data[i]).None? <==> !Complete(page.rows[i + 1]) {
        assert data[i] == page.rows[i + 1];
        RowThrows(profile, data[i]);
      }
      if exists i :: 1 <= i < |page.rows| && !Complete(page.rows[i]) {
        var i :| 1 <= i < |page.rows| && !Complete(page.rows[i]);
        assert data[i - 1] == page.rows[i];
      }
    }
  }

  /** The first row is skipped whatever it holds: replacing it changes nothing. */
  lemma HeaderIgnored(page: Page, libs: Libs, header: Row)
    requires page.rows != []
    ensures Format(page.(rows := [header] + page.rows[1..]), libs) == Format(page, libs)
  {
    DataRowsAfterHeader(header, page.rows[1..]);
  }

  /**
   * The readings of one complete row: the measurement for the parameter of
   * column j (children 3 and 4) is there exactly when the cell's text has a
   * digit, and its value is the decimal value of the first run of digits.
   */
  lemma RowReadings(date: DateStamp, libs: Libs, row: Row, j: nat)
    requires Complete(row) && j < 2
    ensures EmitRow(RowProfile(date, libs), row).Some?
    ensures var ms := EmitRow(RowProfile(date, libs), row).value;
      var text := CellText(row, j);
      && ((exists m :: m in ms && m.parameter == Columns[j].parameter) <==> !NoDigit(text))
      && (forall m :: m in ms && m.parameter == Columns[j].parameter ==>
            m.value == Finite(DigitsValue(FirstDigitRun(text).value) as real))
  {
    var profile := RowProfile(date, libs);
    CompleteIsReadable(row);
    ColumnsDistinct();
    EmitColumnsPresent(profile, row, Columns);
    EmitColumnsValued(profile, row, Columns);
  }

  /**
   * What a whole run emits: at most two measurements per station row, only
   * pm25 and pm10 (the CO conversion is never reached), every value a
   * non-negative whole number, the fixed fields and the run's date, and the
   * location and coordinates of the station of one of the rows after the header.
   */
  lemma FormatFields(page: Page, libs: Libs)
    requires Format(page, libs).Returned?
    ensures Format(page, libs).data.Some?
    ensures var f := Format(page, libs).data.value;
      var date := libs.getDate(AssembleDate(page.dateLabel).value);
      && f.name == "unused"
      && |f.measurements| <= 2 * |DataRows(page.rows)|
      && forall m :: m in f.measurements ==>
          && (m.parameter == Pm25 || m.parameter == Pm10)
          && m.value.Finite? && m.value.r >= 0.0 && m.value.r == m.value.r.Floor as real
          && m.unit == Unit && m.averagingPeriod == Hourly && m.date == date && m.attribution == Attributions
          && exists i :: (1 <= i < |page.rows|
               && m.location == libs.tr(Station(page.rows[i]))
               && m.coordinates == GetCoordinates(libs.locations, Station(page.rows[i])))
  {
    FormatReturns(page, libs);
    var profile := RowProfile(libs.getDate(AssembleDate(page.dateLabel).value), libs);
    var data := DataRows(page.rows);
    var ms := EmitRows(profile, data).value;
    EmitRowsCount(profile, data);
    forall m | m in ms
      ensures (m.parameter == Pm25 || m.parameter == Pm10)
      ensures m.value.Finite? && m.value.r >= 0.0 && m.value.r == m.value.r.Floor as real
      ensures m.unit == Unit && m.averagingPeriod == Hourly && m.date == profile.date && m.attribution == Attributions
      ensures exists i :: (1 <= i < |page.rows|
        && m.location == libs.tr(Station(page.rows[i]))
        && m.coordinates == GetCoordinates(libs.locations, Station(page.rows[i])))
    {
      DataMeasurement(profile.date, libs, data, m);
      StationOfMeasurement(profile.date, libs, page.rows, m);
    }
  }

  /** A measurement of the data rows carries the fields of one row after the header. */
  lemma StationOfMeasurement(date: DateStamp, libs: Libs, rows: seq<Row>, m: Measurement)
    requires EmitRows(RowProfile(date, libs), DataRows(rows)).Some? && m in EmitRows(RowProfile(date, libs), DataRows(rows)).value
    ensures m.unit == Unit && m.averagingPeriod == Hourly && m.date == date && m.attribution == Attributions
    ensures exists i :: (1 <= i < |rows|
      && m.location == libs.tr(Station(rows[i]))
      && m.coordinates == GetCoordinates(libs.locations, Station(rows[i])))
  {
    var profile := RowProfile(date, libs);
    var data := DataRows(rows);
    EmitRowsFields(profile, data, m);
    var i :| 0 <= i < |data| && FromRow(m, profile, data[i]);
    var row := rows[i + 1];
    assert data[i] == row;
    assert profile.prefix + Station(row) == Station(row);
  }

  /** One measurement of a run of data rows: a pm25 or pm10 reading that is a non-negative whole number. */
  lemma DataMeasurement(date: DateStamp, libs: Libs, data: seq<Row>, m: Measurement)
    requires EmitRows(RowProfile(date, libs), data).Some? && m in EmitRows(RowProfile(date, libs), data).value
    ensures m.parameter == Pm25 || m.parameter == Pm10
    ensures m.value.Finite? && m.value.r >= 0.0 && m.value.r == m.value.r.Floor as real
  {
    var profile := RowProfile(date, libs);
    ColumnsDistinct();
    EmitRowsReading(profile, data, m);
    var i, j :| 0 <= i < |data| && 0 <= j < |Columns|
      && Readable(data[i], Columns[j].index)
      && m.parameter == Columns[j].parameter
      && DigitReading(CellData(data[i], Columns[j])).Some?
      && m.value == InMicrograms(m.parameter, DigitReading(CellData(data[i], Columns[j])).value);
    var n := DigitsValue(FirstDigitRun(CellData(data[i], Columns[j])).value);
    assert m.value == Finite(n as real);
    assert (n as real).Floor == n;
  }

  /** Rows are emitted in document order: the station rows `a + b` under a header emit those of `a`, then those of `b`. */
  lemma RowsInOrder(page: Page, libs: Libs, header: Row, a: seq<Row>, b: seq<Row>)
    requires page.rows == [header] + (a + b)
    requires Format(page, libs).Returned?
    ensures Format(page.(rows := [header] + a), libs).Returned? && Format(page.(rows := [header] + b), libs).Returned?
    ensures Format(page, libs).data.value.measurements ==
      Format(page.(rows := [header] + a), libs).data.value.measurements
        + Format(page.(rows := [header] + b), libs).data.value.measurements
  {
    var pa, pb := page.(rows := [header] + a), page.(rows := [header] + b);
    FormatReturns(page, libs);
    var profile := RowProfile(libs.getDate(AssembleDate(page.dateLabel).value), libs);
    DataRowsAfterHeader(header, a + b);
    DataRowsAfterHeader(header, a);
    DataRowsAfterHeader(header, b);
    EmitRowsAppend(profile, a, b);
    assert EmitRows(profile, a + b).Some?;
    assert Format(page, libs).data.value.measurements == EmitRows(profile, a + b).value;
    assert Format(pa, libs) == Returned(Some(Formatted("unused", EmitRows(profile, a).value)));
    assert Format(pb, libs) == Returned(Some(Formatted("unused", EmitRows(profile, b).value)));
  }

  /**
   * The digit runs of a label with year, month, day, hour and minute are
   * reassembled month first: "3/14/2016 15:30:00".
   */
  lemma DateFromLabel(seps: seq<string>, y: string, mo: string, d: string, h: string, mi: string)
    requires |seps| == 6 && forall i :: 0 <= i < 6 ==> NoDigit(seps[i])
    requires seps[1] != [] && seps[2] != [] && seps[3] != [] && seps[4] != []
    requires y != [] && mo != [] && d != [] && h != [] && mi != []
    requires AllDigits(y) && AllDigits(mo) && AllDigits(d) && AllDigits(h) && AllDigits(mi)
    ensures AssembleDate(Interleave(seps, [y, mo, d, h, mi]))
      == Some(mo + "/" + d + "/" + y + " " + h + ":" + mi + ":00")
  {
    DigitRunsOfInterleave(seps, [y, mo, d, h, mi]);
  }

  /**
   * A label with year, month, day and hour only (no minute) has no fifth
   * run: the minute is concatenated as the text "undefined".
   */
  lemma DateWithoutMinute(seps: seq<string>, y: string, mo: string, d: string, h: string)
    requires |seps| == 5 && forall i :: 0 <= i < 5 ==> NoDigit(seps[i])
    requires seps[1] != [] && seps[2] != [] && seps[3] != []
    requires y != [] && mo != [] && d != [] && h != []
    requires AllDigits(y) && AllDigits(mo) && AllDigits(d) && AllDigits(h)
    ensures AssembleDate(Interleave(seps, [y, mo, d, h]))
      == Some(mo + "/" + d + "/" + y + " " + h + ":undefined:00")
  {
    var time := [y, mo, d, h];
    DigitRunsOfInterleave(seps, time);
    assert AssembleDate(Interleave(seps, time)) == Some(DateOfRuns(time));
    MinuteUndefined(y, mo, d, h);
  }

  lemma MinuteUndefined(y: string, mo: string, d: string, h: string)
    ensures DateOfRuns([y, mo, d, h]) == mo + "/" + d + "/" + y + " " + h + ":undefined:00"
  {
    var x := mo + "/" + d + "/" + y + " " + h;
    assert MatchAt([y, mo, d, h], 4) == "undefined";
    assert DateOfRuns([y, mo, d, h]) == x + ":" + "undefined" + ":00";
    assert x + ":" + "undefined" + ":00" == x + ":undefined:00";
  }
}
