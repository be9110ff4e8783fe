/**
 * The pm25s adapter: one page per city, a `.date` label such as
 * "2016年3月14日15时", a `#title` holding the city name followed by "PM2.5",
 * and one `div` per station whose children 2 to 7 hold pm25, pm10, co, no2,
 * so2 and o3.
 */
module Pm25s {
  import opened Util
  import opened JsRegex
  import opened JsNumber
  import opened Measurements

  /** `values.pm25 = entries[2]` ... `values.o3 = entries[7]`, in the order the keys are added. */
  const Columns: seq<Column> :=
    [Column(Pm25, 2), Column(Pm10, 3), Column(Co, 4), Column(No2, 5), Column(So2, 6), Column(O3, 7)]

  const Attributions: seq<Attribution> := [Attribution("PM25s.com", "http://pm25s.com")]

  /**
   * `time[1] + '/' + time[2] + '/' + time[0] + ' ' + time[3] + ':00:00'` over
   * the digit runs of the date label; None when the label has no digit (then
   * `match` returns null and indexing it throws).
   */
  function AssembleDate(dateText: string): (r: Option<string>)
    ensures r.None? <==> NoDigit(dateText)
  {
    var time := DigitRuns(dateText);
    if time == [] then None else Some(DateOfRuns(time))
  }

  function DateOfRuns(time: seq<string>): string {
    MatchAt(time, 1) + "/" + MatchAt(time, 2) + "/" + MatchAt(time, 0) + " " + MatchAt(time, 3) + ":00:00"
  }

  /** `getCoordinates(city, station)`: the table is keyed by the city and station names run together. */
  function GetCoordinates(locations: map<string, (real, real)>, city: string, station: string): (r: Option<Coordinates>)
    ensures r.Some? <==> city + station in locations
    ensures r.Some? ==> r.value == Coordinates(locations[city + station].1, locations[city + station].0)
  {
    Lookup(locations, city + station)
  }

  /** The city name: the `#title` text with every P, M, 2, dot and 5 deleted. */
  function City(page: Page): (city: string)
    ensures forall c :: c in city ==> !InPm25Class(c)
  {
    RemovePm25Chars(page.cityLabel)
  }

  /** What every row of a run shares. */
  function RowProfile(city: string, date: DateStamp, libs: Libs): Profile {
    Profile(Columns, NumericText, city, date, Attributions, libs)
  }

  /** Every mapped child is present and has a first child with `data`. */
  predicate Complete(row: Row) {
    |row| >= 8 && forall k :: 2 <= k <= 7 ==> row[k].firstText.Some?
  }

  /** `formatData`, as a function of the selected page. */
  function Format(page: Page, libs: Libs): FormatOutcome {
    match AssembleDate(page.dateLabel)
    case None => Threw
    case Some(time) =>
      var ms := EmitRows(RowProfile(City(page), libs.getDate(time), libs), page.rows);
      if ms.None? then Threw else Returned(Some(Formatted("unused", ms.value)))
  }

  lemma ColumnsDistinct()
    ensures DistinctParameters(Columns)
  {
  }

  lemma CompleteIsReadable(row: Row)
    ensures Complete(row) <==> forall j :: 0 <= j < |Columns| ==> Readable(row, Columns[j].index)
  {
    if forall j :: 0 <= j < |Columns| ==> Readable(row, Columns[j].index) {
      assert Readable(row, Columns[5].index);
      forall k | 2 <= k <= 7 ensures row[k].firstText.Some? {
        assert Readable(row, Columns[k - 2].index);
      }
    }
    if Complete(row) {
      forall j | 0 <= j < |Columns| ensures Readable(row, Columns[j].index) {
        assert Columns[j].index == j + 2;
      }
    }
  }

  /** `children[0].data` of the child that column `j` maps, in a complete row. */
  function CellText(row: Row, j: nat): string
    requires Complete(row) && j < |Columns|
  {
    CompleteIsReadable(row);
    CellData(row, Columns[j])
  }

  /**
   * `formatData` of adapters/pm25s.js (lines 65-137): the date label is
   * reassembled (a label without digits throws), the city name cleaned, and
   * the rows handed to the row loop; a row that throws ends the run.
   */
  method FormatData(page: Page, libs: Libs) returns (r: FormatOutcome)
    ensures r == Format(page, libs)
  {
    var time := AssembleDate(page.dateLabel);
    if time.None? {
      return Threw;
    }
    var date := libs.getDate(time.value);
    var thisCity := City(page);
    var found := FormatRows(thisCity, date, libs, page.rows);
    if found.None? {
      return Threw;
    }
    return Returned(Some(Formatted("unused", found.value)));
  }

  /**
   * The row loop of `formatData`: each row's measurements are appended in
   * document order; a row that throws ends the run (None).
   */
  method FormatRows(thisCity: string, date: DateStamp, libs: Libs, rows: seq<Row>) returns (found: Option<seq<Measurement>>)
    ensures found == EmitRows(RowProfile(thisCity, date, libs), rows)
  {
    ghost var profile := RowProfile(thisCity, date, libs);
    var measurements: seq<Measurement> := [];
    var i := 0;
    while i < |rows|
      invariant 0 <= i <= |rows|
      invariant EmitRows(profile, rows[..i]) == Some(measurements)
    {
      var next := FormatRow(thisCity, date, libs, rows[i]);
      EmitRowsStep(profile, rows, i, measurements, next);
      if next.None? {
        return None;
      }
      measurements := measurements + next.value;
      i := i + 1;
    }
    assert rows[..i] == rows;
    return Some(measurements);
  }

  /**
   * The key loop of `formatData` for one station row: each mapped cell is
   * read in turn and its measurement, if any, appended; a missing cell or
   * one whose first child has no `data` throws (None).
   */
  method FormatRow(thisCity: string, date: DateStamp, libs: Libs, entries: Row) returns (found: Option<seq<Measurement>>)
    ensures found == EmitRow(RowProfile(thisCity, date, libs), entries)
  {
    ghost var profile := RowProfile(thisCity, date, libs);
    var stationName := StripBreaks(StationText(entries));
    var measurements: seq<Measurement> := [];
    var k := 0;
    while k < |Columns|
      invariant 0 <= k <= |Columns|
      invariant EmitColumns(profile, entries, Columns[..k]) == Some(measurements)
    {
      var cell := FormatCell(thisCity, date, libs, entries, stationName, Columns[k]);
      if cell.None? {
        EmitColumnsUnreadable(profile, entries, Columns, k);
        return None;
      }
      EmitColumnsAdd(profile, entries, Columns, k, measurements, cell.value);
      measurements := measurements + cell.value;
      k := k + 1;
    }
    assert Columns[..k] == Columns;
    return Some(measurements);
  }

  /**
   * One pass of the key loop: the cell is cleaned and kept unless `isNaN`,
   * CO times 1000; reading a missing cell or one whose first child has no
   * `data` throws (None).
   */
  method FormatCell(thisCity: string, date: DateStamp, libs: Libs, entries: Row, stationName: string, col: Column)
    returns (found: Option<seq<Measurement>>)
    requires stationName == Station(entries)
    ensures found == EmitColumn(RowProfile(thisCity, date, libs), entries, col)
  {
    ghost var profile := RowProfile(thisCity, date, libs);
    if col.index >= |entries| || entries[col.index].firstText.None? {
      return None;
    }
    var value := StripBreaks(entries[col.index].firstText.value);
    assert profile.read(CellData(entries, col)) == NumericText(entries[col.index].firstText.value);
    if IsNaN(value) {
      ColumnDropped(profile, entries, col);
      return Some([]);
    }
    var v := ParseFloat(value);
    ColumnKept(profile, entries, col, v);
    if col.parameter == Co {
      v := TimesThousand(v);
    }
    var obj := Measurement(libs.tr(thisCity + stationName), col.parameter, Unit, Hourly, date, v,
                           Attributions, GetCoordinates(libs.locations, thisCity, stationName));
    assert v == InMicrograms(col.parameter, ParseFloat(value));
    assert obj == Measure(profile, entries, col.parameter, ParseFloat(value)) by {
      assert GetCoordinates(libs.locations, thisCity, stationName) == Lookup(libs.locations, thisCity + stationName);
    }
    return Some([obj]);
  }

  /**
   * `fetchData`: a transport error or a status other than 200 is a load
   * failure; otherwise the page is formatted, an exception becoming the
   * generic adapter error. The parse-failure branch is never taken.
   */
  method FetchData(response: Response, libs: Libs) returns (r: CallbackResult)
    ensures !Loaded(response) ==> r == Failed(LoadFailure)
    ensures Loaded(response) ==> r == Settle(Format(response.body, libs))
    ensures Loaded(response) ==>
      (r == Failed(UnknownError) <==>
        NoDigit(response.body.dateLabel)
        || exists i :: 0 <= i < |response.body.rows| && !Complete(response.body.rows[i]))
    ensures r != Failed(ParseFailure)
  {
    if response.TransportError? || response.statusCode != 200 {
      return Failed(LoadFailure);
    }
    var data := FormatData(response.body, libs);
    FormatThrows(response.body, libs);
    r := Settle(data);
  }

  // ---------------------------------------------------------------------
  // Properties
  // ---------------------------------------------------------------------

  /** A row throws exactly when it is not complete. */
  lemma RowThrows(profile: Profile, row: Row)
    requires profile.columns == Columns
    ensures EmitRow(profile, row).None? <==> !Complete(row)
  {
    EmitColumnsThrows(profile, row, Columns);
    CompleteIsReadable(row);
  }

  /** A run throws exactly when the date label has no digit or some row is incomplete. */
  lemma FormatThrows(page: Page, libs: Libs)
    ensures Format(page, libs) == Threw <==>
      NoDigit(page.dateLabel) || exists i :: 0 <= i < |page.rows| && !Complete(page.rows[i])
    ensures Format(page, libs) != Returned(None)
  {
    var time := AssembleDate(page.dateLabel);
    if time.Some? {
      var profile := RowProfile(City(page), libs.getDate(time.value), libs);
      EmitRowsThrows(profile, page.rows);
      forall i | 0 <= i < |page.rows| ensures EmitRow(profile, page.rows[i]).None? <==> !Complete(page.rows[i]) {
        RowThrows(profile, page.rows[i]);
      }
    }
  }

  /**
   * The shape of what one complete row emits: at most six measurements, in
   * the order pm25, pm10, co, no2, so2, o3, each with the fixed unit, period
   * and attribution, the run's date, `tr(city + station)` as location and
   * the coordinates keyed by city + station.
   */
  lemma RowShape(city: string, date: DateStamp, libs: Libs, row: Row)
    requires Complete(row)
    ensures EmitRow(RowProfile(city, date, libs), row).Some?
    ensures var ms := EmitRow(RowProfile(city, date, libs), row).value;
      && |ms| <= 6
      && (forall m :: m in ms ==>
            && m.unit == Unit && m.averagingPeriod == Hourly && m.date == date && m.attribution == Attributions
            && m.location == libs.tr(city + Station(row))
            && m.coordinates == GetCoordinates(libs.locations, city, Station(row)))
      && Ordered(ms, Columns)
  {
    var profile := RowProfile(city, date, libs);
    CompleteIsReadable(row);
    ColumnsDistinct();
    EmitColumnsFields(profile, row, Columns);
    EmitColumnsOrdered(profile, row, Columns);
  }

  /**
   * The readings of one complete row: the measurement for the parameter of
   * column j (children 2..7) is there exactly when the cleaned cell text is
   * not `isNaN`, and carries `parseFloat` of that text, times 1000 for CO.
   */
  lemma RowReadings(city: string, date: DateStamp, libs: Libs, row: Row, j: nat)
    requires Complete(row) && j < 6
    ensures EmitRow(RowProfile(city, date, libs), row).Some?
    ensures var ms := EmitRow(RowProfile(city, date, libs), row).value;
      var text := StripBreaks(CellText(row, j));
      && ((exists m :: m in ms && m.parameter == Columns[j].parameter) <==> !IsNaN(text))
      && (forall m :: m in ms && m.parameter == Columns[j].parameter ==>
            m.value == InMicrograms(m.parameter, ParseFloat(text)))
  {
    var profile := RowProfile(city, date, libs);
    CompleteIsReadable(row);
    ColumnsDistinct();
    EmitColumnsPresent(profile, row, Columns);
    EmitColumnsValued(profile, row, Columns);
  }

  /** What a whole run emits: every measurement carries the run's date and the fixed fields, and comes from one of the rows. */
  lemma FormatFields(page: Page, libs: Libs)
    requires Format(page, libs).Returned?
    ensures Format(page, libs).data.Some?
    ensures var f := Format(page, libs).data.value;
      var date := libs.getDate(AssembleDate(page.dateLabel).value);
      && f.name == "unused"
      && |f.measurements| <= 6 * |page.rows|
      && forall m :: m in f.measurements ==>
          && m.unit == Unit && m.averagingPeriod == Hourly && m.date == date && m.attribution == Attributions
          && exists i :: (0 <= i < |page.rows|
               && m.location == libs.tr(City(page) + Station(page.rows[i]))
               && m.coordinates == GetCoordinates(libs.locations, City(page), Station(page.rows[i])))
  {
    var profile := RowProfile(City(page), libs.getDate(AssembleDate(page.dateLabel).value), libs);
    var ms := EmitRows(profile, page.rows).value;
    EmitRowsCount(profile, page.rows);
    forall m | m in ms
      ensures exists i :: (0 <= i < |page.rows|
        && m.location == libs.tr(City(page) + Station(page.rows[i]))
        && m.coordinates == GetCoordinates(libs.locations, City(page), Station(page.rows[i])))
    {
      EmitRowsFields(profile, page.rows, m);
    }
    forall m | m in ms ensures m.unit == Unit && m.averagingPeriod == Hourly && m.date == profile.date && m.attribution == Attributions {
      EmitRowsFields(profile, page.rows, m);
    }
  }

  /** Rows are emitted in document order: a page whose rows are `a + b` emits the measurements of `a`, then those of `b`. */
  lemma RowsInOrder(page: Page, libs: Libs, a: seq<Row>, b: seq<Row>)
    requires page.rows == a + b
    requires Format(page, libs).Returned?
    ensures Format(page.(rows := a), libs).Returned? && Format(page.(rows := b), libs).Returned?
    ensures Format(page, libs).data.value.measurements ==
      Format(page.(rows := a), libs).data.value.measurements + Format(page.(rows := b), libs).data.value.measurements
  {
    var profile := RowProfile(City(page), libs.getDate(AssembleDate(page.dateLabel).value), libs);
    EmitRowsAppend(profile, a, b);
  }

  /**
   * The digit runs of a date label like "2016年3月14日15时" (year, month, day,
   * hour with non-digit text between) are reassembled month first:
   * "3/14/2016 15:00:00".
   */
  lemma DateFromLabel(seps: seq<string>, y: string, mo: string, d: string, h: string)
    requires |seps| == 5 && forall i :: 0 <= i < 5 ==> NoDigit(seps[i])
    requires seps[1] != [] && seps[2] != [] && seps[3] != []
    requires y != [] && mo != [] && d != [] && h != []
    requires AllDigits(y) && AllDigits(mo) && AllDigits(d) && AllDigits(h)
    ensures AssembleDate(Interleave(seps, [y, mo, d, h])) == Some(mo + "/" + d + "/" + y + " " + h + ":00:00")
  {
    DigitRunsOfInterleave(seps, [y, mo, d, h]);
  }

  /**
   * With a single digit run (a bare year, say) the missing parts are
   * concatenated as the text "undefined"; nothing throws.
   */
  lemma DateFromShortLabel(seps: seq<string>, y: string)
    requires |seps| == 2 && NoDigit(seps[0]) && NoDigit(seps[1])
    requires y != [] && AllDigits(y)
    ensures AssembleDate(Interleave(seps, [y])) == Some("undefined/undefined/" + y + " undefined:00:00")
  {
    DigitRunsOfInterleave(seps, [y]);
    assert AssembleDate(Interleave(seps, [y])) == Some(DateOfRuns([y]));
    YearOnly(y);
  }

  lemma YearOnly(y: string)
    ensures DateOfRuns([y]) == "undefined/undefined/" + y + " undefined:00:00"
  {
    var x := "undefined/undefined/" + y;
    assert DateOfRuns([y]) == x + " " + "undefined" + ":00:00" by {
      assert "undefined" + "/" + "undefined" + "/" == "undefined/undefined/";
    }
    assert x + " " + "undefined" + ":00:00" == x + " undefined:00:00";
  }

  /**
   * A blank cell is not filtered out: `isNaN` of the cleaned (blank) text is
   * false, so a measurement is emitted, and its value is `parseFloat` of
   * blank text, NaN.
   */
  lemma BlankCellEmitsNaN(city: string, date: DateStamp, libs: Libs, row: Row, j: nat)
    requires Complete(row) && j < 6
    requires forall i :: 0 <= i < |CellText(row, j)| ==> IsSpace(CellText(row, j)[i])
    ensures EmitRow(RowProfile(city, date, libs), row).Some?
    ensures exists m :: (m in EmitRow(RowProfile(city, date, libs), row).value
      && m.parameter == Columns[j].parameter && m.value == NaN)
  {
    var text := CellText(row, j);
    StripBlank(text);
    BlankText(StripBreaks(text));
    RowReadings(city, date, libs, row, j);
  }

  /** A negative reading passes the filter unchanged. */
  lemma NegativeCellKept(city: string, date: DateStamp, libs: Libs, row: Row)
    requires Complete(row) && row[2].firstText == Some("-5")
    ensures EmitRow(RowProfile(city, date, libs), row).Some?
    ensures exists m :: (m in EmitRow(RowProfile(city, date, libs), row).value
      && m.parameter == Pm25 && m.value == Finite(-5.0))
  {
    var profile := RowProfile(city, date, libs);
    assert CellText(row, 0) == "-5";
    StripKeepsTidy("-5");
    MinusFive();
    RowReadings(city, date, libs, row, 0);
    var ms := EmitRow(profile, row).value;
    assert exists m :: m in ms && m.parameter == Pm25;
    var m :| m in ms && m.parameter == Pm25;
    assert m.value == InMicrograms(Pm25, Finite(-5.0));
  }
}
