/**
 * What the three adapters share: the measurement record they emit, the page
 * they read (already selected by the HTML library), the libraries they call,
 * the coordinate lookup, the row-by-row emission they all perform, and the
 * callback outcomes of `fetchData`.
 */
module Measurements {
  import opened Util
  import opened JsRegex
  import opened JsNumber

  // ---------------------------------------------------------------------
  // The emitted record
  // ---------------------------------------------------------------------

  datatype Parameter = Pm25 | Pm10 | Co | No2 | So2 | O3

  /** The property name each parameter has in the adapters' `values` object. */
  function Key(p: Parameter): string {
    match p
    case Pm25 => "pm25"
    case Pm10 => "pm10"
    case Co => "co"
    case No2 => "no2"
    case So2 => "so2"
    case O3 => "o3"
  }

  /**
   * The emitted `parameter` is the `values` key itself; distinct parameters
   * have distinct keys, so the model's enumeration loses nothing.
   */
  lemma KeyInjective(p: Parameter, q: Parameter)
    ensures Key(p) == Key(q) <==> p == q
  {
  }

  datatype AveragingPeriod = AveragingPeriod(value: int, unit: string)
  datatype Attribution = Attribution(name: string, url: string)
  datatype Coordinates = Coordinates(latitude: real, longitude: real)

  /** What `getDate` returns: the instant as a JavaScript time value (NaN for an invalid date) and its local rendering. */
  datatype DateStamp = DateStamp(utc: Number, local: string)

  /** One output object; `coordinates` is None when the object has no such property. */
  datatype Measurement = Measurement(
    location: string,
    parameter: Parameter,
    unit: string,
    averagingPeriod: AveragingPeriod,
    date: DateStamp,
    value: Number,
    attribution: seq<Attribution>,
    coordinates: Option<Coordinates>)

  const Unit: string := "µg/m³"
  const Hourly: AveragingPeriod := AveragingPeriod(1, "hours")

  // ---------------------------------------------------------------------
  // The page and the libraries
  // ---------------------------------------------------------------------

  /**
   * One child element of a row: `text` is what `.text()` gives (all
   * descendant text) and `firstText` is `children[0].data`, absent when the
   * element has no first child or that child has no `data` (text and
   * comment nodes have it, elements do not).
   */
  datatype Cell = Cell(text: string, firstText: Option<string>)

  type Row = seq<Cell>

  /** The selected parts of a page: the date label, the city label and the data rows, in document order. */
  datatype Page = Page(dateLabel: string, cityLabel: string, rows: seq<Row>)

  /**
   * The collaborators: the transliteration function, `getDate` (the
   * moment-timezone parse in Asia/Shanghai), and the contents of
   * china-locations.json, whose entries are [longitude, latitude].
   */
  datatype Libs = Libs(
    tr: string -> string,
    getDate: string -> DateStamp,
    locations: map<string, (real, real)>)

  /** `$(entries[0]).text()`: the text of the first cell, or "" when the row has none. */
  function StationText(row: Row): string {
    if |row| == 0 then "" else row[0].text
  }

  /**
   * `getCoordinates`: the table entry for `key`, with its first component as
   * the longitude and its second as the latitude; no entry, no coordinates.
   */
  function Lookup(locations: map<string, (real, real)>, key: string): (r: Option<Coordinates>)
    ensures r.Some? <==> key in locations
    ensures r.Some? ==> r.value.latitude == locations[key].1 && r.value.longitude == locations[key].0
  {
    if key in locations then Some(Coordinates(locations[key].1, locations[key].0)) else None
  }

  // ---------------------------------------------------------------------
  // Row emission
  // ---------------------------------------------------------------------

  /** A column map entry: the parameter read from the row's child at `index`. */
  datatype Column = Column(parameter: Parameter, index: nat)

  predicate DistinctParameters(cols: seq<Column>) {
    forall i, j :: 0 <= i < j < |cols| ==> cols[i].parameter != cols[j].parameter
  }

  /** `entries[index].children[0].data` can be read without throwing. */
  predicate Readable(row: Row, index: nat) {
    index < |row| && row[index].firstText.Some?
  }

  /** The text a column reads from a row. */
  function CellData(row: Row, col: Column): string
    requires Readable(row, col.index)
  {
    row[col.index].firstText.value
  }

  /** The value the output carries: the CO reading times 1000, every other reading unchanged. */
  function InMicrograms(p: Parameter, v: Number): Number {
    if p == Co then TimesThousand(v) else v
  }

  /** What one adapter run fixes for every row: its column map, how it reads a cell, the city prefix, the date and the attribution. */
  datatype Profile = Profile(
    columns: seq<Column>,
    read: string -> Option<Number>,
    prefix: string,
    date: DateStamp,
    attribution: seq<Attribution>,
    libs: Libs)

  /** The cleaned station name of a row. */
  function Station(row: Row): string {
    StripBreaks(StationText(row))
  }

  /** The measurement object built for parameter `p` with reading `v` on `row`. */
  function Measure(profile: Profile, row: Row, p: Parameter, v: Number): Measurement {
    var key := profile.prefix + Station(row);
    Measurement(profile.libs.tr(key), p, Unit, Hourly, profile.date, InMicrograms(p, v),
                profile.attribution, Lookup(profile.libs.locations, key))
  }

  /** One column of one row: None when reading the cell throws, otherwise zero or one measurement. */
  function EmitColumn(profile: Profile, row: Row, col: Column): Option<seq<Measurement>> {
    if !Readable(row, col.index) then None
    else
      match profile.read(CellData(row, col))
      case None => Some([])
      case Some(v) => Some([Measure(profile, row, col.parameter, v)])
  }

  /** The columns of one row, in column-map order; None as soon as one of them throws. */
  function EmitColumns(profile: Profile, row: Row, cols: seq<Column>): Option<seq<Measurement>>
    decreases |cols|
  {
    if cols == [] then Some([])
    else
      var init := EmitColumns(profile, row, cols[..|cols| - 1]);
      var last := EmitColumn(profile, row, cols[|cols| - 1]);
      if init.None? || last.None? then None else Some(init.value + last.value)
  }

  function EmitRow(profile: Profile, row: Row): Option<seq<Measurement>> {
    EmitColumns(profile, row, profile.columns)
  }

  /** What one row emits, as a value the run-level lemmas can take without looking inside it. */
  function RowEmitter(profile: Profile): Row -> Option<seq<Measurement>> {
    row => EmitRow(profile, row)
  }

  /**
   * The outputs of `emit` on the rows in document order, concatenated; None
   * when any row gives None. This is the outer `forEach` of `formatData`,
   * whose accumulator is the `measurements` array.
   */
  function Gather(emit: Row -> Option<seq<Measurement>>, rows: seq<Row>): Option<seq<Measurement>>
    decreases |rows|
  {
    if rows == [] then Some([])
    else
      var init := Gather(emit, rows[..|rows| - 1]);
      var last := emit(rows[|rows| - 1]);
      if init.None? || last.None? then None else Some(init.value + last.value)
  }

  /** The rows in document order, their measurements concatenated; None when any row throws. */
  function EmitRows(profile: Profile, rows: seq<Row>): Option<seq<Measurement>> {
    Gather(RowEmitter(profile), rows)
  }

  /**
   * The cell reading of pm25s and pm25in: clean the text, drop it when
   * `isNaN` says so, otherwise take `parseFloat` of it.
   */
  function NumericText(data: string): Option<Number> {
    var text := StripBreaks(data);
    if IsNaN(text) then None else Some(ParseFloat(text))
  }

  /** A blank cell is read, as NaN: `isNaN` of blank text is false, `parseFloat` of it NaN. */
  lemma BlankReadsNaN(data: string)
    requires forall i :: 0 <= i < |data| ==> IsSpace(data[i])
    ensures NumericText(data) == Some(NaN)
  {
    StripBlank(data);
    BlankText(StripBreaks(data));
  }

  /** A cell holding a plain digit string is read as its decimal value. */
  lemma DigitsRead(data: string)
    requires data != [] && AllDigits(data)
    ensures NumericText(data) == Some(Finite(DigitsValue(data) as real))
  {
    assert Tidy(data);
    StripKeepsTidy(data);
    Numeral(data);
  }

  /**
   * Hexadecimal text passes the `isNaN` filter (`Number("0x1A")` is 26) but
   * `parseFloat` stops after the leading "0": the reading emitted is 0.
   */
  lemma HexTextReadsZero()
    ensures StringToNumber("0x1A") == Finite(26.0)
    ensures NumericText("0x1A") == Some(Finite(0.0))
  {
    assert StripBreaks("0x1A") == "0x1A" by {
      StripKeepsTidy("0x1A");
    }
    HexNumber();
    HexParse();
  }

  lemma HexNumber()
    ensures StringToNumber("0x1A") == Finite(26.0)
  {
    var s := "0x1A";
    assert LeadingRun(s, IsSpace) == 0;
    assert TrimStart(s) == s && TrimEnd(s) == s;
    assert s[2..] == "1A";
    assert RadixValue("1A", 16) == 26 by {
      assert "1A"[..1] == "1" && "1"[..0] == [];
    }
  }

  lemma HexParse()
    ensures ParseFloat("0x1A") == Finite(0.0)
  {
    var s := "0x1A";
    assert LeadingRun(s, IsSpace) == 0;
    assert TrimStart(s) == s;
    assert !StartsWithInfinity(s);
    assert LeadingRun(s, IsDigit) == 1;
    assert s[1] != '.';
    assert s[..1] == "0";
    assert DigitsValue("0") == 0 by {
      assert "0"[..0] == [];
    }
    assert s[1..] == "x1A";
    assert ScanExponent("x1A") == (0, 0);
    assert Scale(0, 0) == 0.0;
  }

  /** The fields every measurement of a row shares, whatever its parameter. */
  predicate FromRow(m: Measurement, profile: Profile, row: Row) {
    var key := profile.prefix + Station(row);
    && m.location == profile.libs.tr(key)
    && m.unit == Unit
    && m.averagingPeriod == Hourly
    && m.date == profile.date
    && m.attribution == profile.attribution
    && m.coordinates == Lookup(profile.libs.locations, key)
  }

  // ---------------------------------------------------------------------
  // Row emission: properties
  // ---------------------------------------------------------------------

  /** A readable cell the reader accepts gives one measurement carrying its reading. */
  lemma ColumnKept(profile: Profile, row: Row, col: Column, v: Number)
    requires Readable(row, col.index) && profile.read(CellData(row, col)) == Some(v)
    ensures EmitColumn(profile, row, col) == Some([Measure(profile, row, col.parameter, v)])
  {
  }

  /** A readable cell the reader rejects gives no measurement. */
  lemma ColumnDropped(profile: Profile, row: Row, col: Column)
    requires Readable(row, col.index) && profile.read(CellData(row, col)).None?
    ensures EmitColumn(profile, row, col) == Some([])
  {
  }

  /** One unreadable mapped cell makes the row throw. */
  lemma EmitColumnsUnreadable(profile: Profile, row: Row, cols: seq<Column>, k: nat)
    requires k < |cols| && !Readable(row, cols[k].index)
    ensures EmitColumns(profile, row, cols).None?
  {
    EmitColumnsThrows(profile, row, cols);
  }

  /** A row throws exactly when one of the mapped cells is missing or has a first child without `data`. */
  lemma {:induction false} EmitColumnsThrows(profile: Profile, row: Row, cols: seq<Column>)
    ensures EmitColumns(profile, row, cols).None?
        <==> exists j :: 0 <= j < |cols| && !Readable(row, cols[j].index)
    decreases |cols|
  {
    if cols != [] {
      var init := cols[..|cols| - 1];
      EmitColumnsThrows(profile, row, init);
      if exists j :: 0 <= j < |init| && !Readable(row, init[j].index) {
        var j :| 0 <= j < |init| && !Readable(row, init[j].index);
        assert cols[j] == init[j];
      }
      if exists j :: 0 <= j < |cols| && !Readable(row, cols[j].index) {
        var j :| 0 <= j < |cols| && !Readable(row, cols[j].index);
        if j < |init| { assert init[j] == cols[j]; }
      }
    }
  }

  /** Every measurement has the parameter of some column of the map. */
  predicate Sourced(ms: seq<Measurement>, cols: seq<Column>) {
    forall m :: m in ms ==> exists j :: 0 <= j < |cols| && m.parameter == cols[j].parameter
  }

  /** A column's parameter is emitted exactly when the reader accepts the column's cell. */
  predicate Present(ms: seq<Measurement>, profile: Profile, row: Row, cols: seq<Column>)
    requires forall j :: 0 <= j < |cols| ==> Readable(row, cols[j].index)
  {
    forall j :: 0 <= j < |cols| ==>
      (profile.read(CellData(row, cols[j])).Some? <==> exists m :: m in ms && m.parameter == cols[j].parameter)
  }

  /** A measurement for a column's parameter carries that cell's reading, in micrograms. */
  predicate Valued(ms: seq<Measurement>, profile: Profile, row: Row, cols: seq<Column>)
    requires forall j :: 0 <= j < |cols| ==> Readable(row, cols[j].index)
  {
    forall m, j :: m in ms && 0 <= j < |cols| && m.parameter == cols[j].parameter ==>
      && profile.read(CellData(row, cols[j])).Some?
      && m.value == InMicrograms(m.parameter, profile.read(CellData(row, cols[j])).value)
  }

  /** The parameters come in column-map order. */
  predicate Ordered(ms: seq<Measurement>, cols: seq<Column>) {
    forall a, b, i, j ::
      (0 <= a < b < |ms| && 0 <= i < |cols| && 0 <= j < |cols|
       && ms[a].parameter == cols[i].parameter && ms[b].parameter == cols[j].parameter) ==> i < j
  }

  lemma StepSourced(pre: seq<Measurement>, last: seq<Measurement>, cols: seq<Column>)
    requires cols != []
    requires Sourced(pre, cols[..|cols| - 1])
    requires forall m :: m in last ==> m.parameter == cols[|cols| - 1].parameter
    ensures Sourced(pre + last, cols)
  {
    var n := |cols| - 1;
    forall m | m in pre + last
      ensures exists j :: 0 <= j < |cols| && m.parameter == cols[j].parameter
    {
      if m in pre {
        var j :| 0 <= j < n && m.parameter == cols[..n][j].parameter;
        assert cols[j] == cols[..n][j];
      } else {
        assert m.parameter == cols[n].parameter;
      }
    }
  }

  /** No measurement of the prefix has the parameter of the last column. */
  lemma PrefixAvoidsLast(pre: seq<Measurement>, cols: seq<Column>)
    requires cols != [] && DistinctParameters(cols)
    requires Sourced(pre, cols[..|cols| - 1])
    ensures forall m :: m in pre ==> m.parameter != cols[|cols| - 1].parameter
  {
    var n := |cols| - 1;
    forall m | m in pre ensures m.parameter != cols[n].parameter {
      var j :| 0 <= j < n && m.parameter == cols[..n][j].parameter;
      assert cols[j] == cols[..n][j];
    }
  }

  lemma StepPresent(pre: seq<Measurement>, last: seq<Measurement>, profile: Profile, row: Row, cols: seq<Column>)
    requires cols != [] && DistinctParameters(cols)
    requires forall j :: 0 <= j < |cols| ==> Readable(row, cols[j].index)
    requires Present(pre, profile, row, cols[..|cols| - 1])
    requires forall m :: m in pre ==> m.parameter != cols[|cols| - 1].parameter
    requires forall m :: m in last ==> m.parameter == cols[|cols| - 1].parameter
    requires profile.read(CellData(row, cols[|cols| - 1])).Some? <==> last != []
    ensures Present(pre + last, profile, row, cols)
  {
    var n := |cols| - 1;
    forall j | 0 <= j < |cols|
      ensures profile.read(CellData(row, cols[j])).Some? <==> exists m :: m in pre + last && m.parameter == cols[j].parameter
    {
      if j < n {
        assert cols[..n][j] == cols[j];
        assert cols[j].parameter != cols[n].parameter;
      } else if last != [] {
        assert last[0] in pre + last;
      }
    }
  }

  lemma StepValued(pre: seq<Measurement>, last: seq<Measurement>, profile: Profile, row: Row, cols: seq<Column>)
    requires cols != [] && DistinctParameters(cols)
    requires forall j :: 0 <= j < |cols| ==> Readable(row, cols[j].index)
    requires Valued(pre, profile, row, cols[..|cols| - 1])
    requires forall m :: m in pre ==> m.parameter != cols[|cols| - 1].parameter
    requires forall m :: m in last ==>
      && m.parameter == cols[|cols| - 1].parameter
      && profile.read(CellData(row, cols[|cols| - 1])).Some?
      && m.value == InMicrograms(m.parameter, profile.read(CellData(row, cols[|cols| - 1])).value)
    ensures Valued(pre + last, profile, row, cols)
  {
    var n := |cols| - 1;
    forall m, j | m in pre + last && 0 <= j < |cols| && m.parameter == cols[j].parameter
      ensures profile.read(CellData(row, cols[j])).Some?
           && m.value == InMicrograms(m.parameter, profile.read(CellData(row, cols[j])).value)
    {
      if m in pre {
        assert j != n;
        assert cols[..n][j] == cols[j];
      } else {
        assert j == n;
      }
    }
  }

  lemma StepOrdered(pre: seq<Measurement>, last: seq<Measurement>, cols: seq<Column>)
    requires cols != [] && DistinctParameters(cols)
    requires Ordered(pre, cols[..|cols| - 1]) && Sourced(pre, cols[..|cols| - 1])
    requires forall m :: m in pre ==> m.parameter != cols[|cols| - 1].parameter
    requires forall m :: m in last ==> m.parameter == cols[|cols| - 1].parameter
    requires |last| <= 1
    ensures Ordered(pre + last, cols)
  {
    var n := |cols| - 1;
    var ms := pre + last;
    forall a, b, i, j | 0 <= a < b < |ms| && 0 <= i < |cols| && 0 <= j < |cols|
        && ms[a].parameter == cols[i].parameter && ms[b].parameter == cols[j].parameter
      ensures i < j
    {
      assert ms[a] == pre[a];
      assert pre[a] in pre;
      assert i != n;
      if b < |pre| {
        assert ms[b] == pre[b];
        assert pre[b] in pre;
        assert j != n;
        assert cols[..n][i] == cols[i] && cols[..n][j] == cols[j];
      } else {
        assert ms[b] in last;
        assert j == n;
      }
    }
  }

  /** The last column's contribution to a row whose mapped cells are readable. */
  lemma EmitColumnsSnoc(profile: Profile, row: Row, cols: seq<Column>)
    requires cols != []
    requires forall j :: 0 <= j < |cols| ==> Readable(row, cols[j].index)
    requires EmitColumns(profile, row, cols[..|cols| - 1]).Some?
    ensures var c := cols[|cols| - 1];
      var r := profile.read(CellData(row, c));
      EmitColumns(profile, row, cols) == Some(EmitColumns(profile, row, cols[..|cols| - 1]).value
        + if r.Some? then [Measure(profile, row, c.parameter, r.value)] else [])
  {
  }

  /** One more column of the map: its contribution is appended, or the row throws. */
  lemma EmitColumnsStep(profile: Profile, row: Row, cols: seq<Column>, k: nat)
    requires k < |cols|
    ensures EmitColumns(profile, row, cols[..k + 1]) ==
      var init := EmitColumns(profile, row, cols[..k]);
      var last := EmitColumn(profile, row, cols[k]);
      if init.None? || last.None? then None else Some(init.value + last.value)
  {
    assert cols[..k + 1][..k] == cols[..k];
  }

  /** The loop form of `EmitColumnsStep`: a readable column's contribution joins what the earlier columns gave. */
  lemma EmitColumnsAdd(profile: Profile, row: Row, cols: seq<Column>, k: nat, acc: seq<Measurement>, more: seq<Measurement>)
    requires k < |cols|
    requires EmitColumns(profile, row, cols[..k]) == Some(acc)
    requires EmitColumn(profile, row, cols[k]) == Some(more)
    ensures EmitColumns(profile, row, cols[..k + 1]) == Some(acc + more)
  {
    EmitColumnsStep(profile, row, cols, k);
  }

  /** At most one measurement per column, each with the row's shared fields and the parameter of some column. */
  lemma {:induction false} EmitColumnsFields(profile: Profile, row: Row, cols: seq<Column>)
    requires forall j :: 0 <= j < |cols| ==> Readable(row, cols[j].index)
    ensures EmitColumns(profile, row, cols).Some?
    ensures |EmitColumns(profile, row, cols).value| <= |cols|
    ensures forall m :: m in EmitColumns(profile, row, cols).value ==> FromRow(m, profile, row)
    ensures Sourced(EmitColumns(profile, row, cols).value, cols)
    decreases |cols|
  {
    if cols != [] {
      var n := |cols| - 1;
      assert forall j :: 0 <= j < n ==> cols[..n][j] == cols[j];
      EmitColumnsFields(profile, row, cols[..n]);
      EmitColumnsSnoc(profile, row, cols);
      var pre := EmitColumns(profile, row, cols[..n]).value;
      var c := cols[n];
      var r := profile.read(CellData(row, c));
      var last := if r.Some? then [Measure(profile, row, c.parameter, r.value)] else [];
      StepSourced(pre, last, cols);
    }
  }

  lemma {:induction false} EmitColumnsPresent(profile: Profile, row: Row, cols: seq<Column>)
    requires DistinctParameters(cols)
    requires forall j :: 0 <= j < |cols| ==> Readable(row, cols[j].index)
    ensures EmitColumns(profile, row, cols).Some?
    ensures Present(EmitColumns(profile, row, cols).value, profile, row, cols)
    decreases |cols|
  {
    EmitColumnsFields(profile, row, cols);
    if cols != [] {
      var n := |cols| - 1;
      assert forall j :: 0 <= j < n ==> cols[..n][j] == cols[j];
      EmitColumnsPresent(profile, row, cols[..n]);
      EmitColumnsFields(profile, row, cols[..n]);
      EmitColumnsSnoc(profile, row, cols);
      var pre := EmitColumns(profile, row, cols[..n]).value;
      var c := cols[n];
      var r := profile.read(CellData(row, c));
      var last := if r.Some? then [Measure(profile, row, c.parameter, r.value)] else [];
      PrefixAvoidsLast(pre, cols);
      StepPresent(pre, last, profile, row, cols);
    }
  }

  lemma {:induction false} EmitColumnsValued(profile: Profile, row: Row, cols: seq<Column>)
    requires DistinctParameters(cols)
    requires forall j :: 0 <= j < |cols| ==> Readable(row, cols[j].index)
    ensures EmitColumns(profile, row, cols).Some?
    ensures Valued(EmitColumns(profile, row, cols).value, profile, row, cols)
    decreases |cols|
  {
    EmitColumnsFields(profile, row, cols);
    if cols != [] {
      var n := |cols| - 1;
      assert forall j :: 0 <= j < n ==> cols[..n][j] == cols[j];
      EmitColumnsValued(profile, row, cols[..n]);
      EmitColumnsFields(profile, row, cols[..n]);
      EmitColumnsSnoc(profile, row, cols);
      var pre := EmitColumns(profile, row, cols[..n]).value;
      var c := cols[n];
      var r := profile.read(CellData(row, c));
      var last := if r.Some? then [Measure(profile, row, c.parameter, r.value)] else [];
      PrefixAvoidsLast(pre, cols);
      StepValued(pre, last, profile, row, cols);
    }
  }

  lemma {:induction false} EmitColumnsOrdered(profile: Profile, row: Row, cols: seq<Column>)
    requires DistinctParameters(cols)
    requires forall j :: 0 <= j < |cols| ==> Readable(row, cols[j].index)
    ensures EmitColumns(profile, row, cols).Some?
    ensures Ordered(EmitColumns(profile, row, cols).value, cols)
    decreases |cols|
  {
    EmitColumnsFields(profile, row, cols);
    if cols != [] {
      var n := |cols| - 1;
      assert forall j :: 0 <= j < n ==> cols[..n][j] == cols[j];
      EmitColumnsOrdered(profile, row, cols[..n]);
      EmitColumnsFields(profile, row, cols[..n]);
      EmitColumnsSnoc(profile, row, cols);
      var pre := EmitColumns(profile, row, cols[..n]).value;
      var c := cols[n];
      var r := profile.read(CellData(row, c));
      var last := if r.Some? then [Measure(profile, row, c.parameter, r.value)] else [];
      PrefixAvoidsLast(pre, cols);
      StepOrdered(pre, last, cols);
    }
  }

  /**
   * What a row whose mapped cells are all readable emits: at most one
   * measurement per column; the measurement for a column's parameter is
   * there exactly when the reader accepts the column's cell, and then carries
   * the reading (times 1000 for CO); the parameters come in column-map
   * order; and every measurement carries the row's shared fields.
   */
  lemma EmitColumnsContent(profile: Profile, row: Row, cols: seq<Column>)
    requires DistinctParameters(cols)
    requires forall j :: 0 <= j < |cols| ==> Readable(row, cols[j].index)
    ensures EmitColumns(profile, row, cols).Some?
    ensures |EmitColumns(profile, row, cols).value| <= |cols|
    ensures forall m :: m in EmitColumns(profile, row, cols).value ==> FromRow(m, profile, row)
    ensures Present(EmitColumns(profile, row, cols).value, profile, row, cols)
    ensures Valued(EmitColumns(profile, row, cols).value, profile, row, cols)
    ensures Ordered(EmitColumns(profile, row, cols).value, cols)
  {
    EmitColumnsFields(profile, row, cols);
    EmitColumnsPresent(profile, row, cols);
    EmitColumnsValued(profile, row, cols);
    EmitColumnsOrdered(profile, row, cols);
  }

  /** A gathered run fails exactly when one of its rows fails. */
  lemma {:induction false} GatherThrows(emit: Row -> Option<seq<Measurement>>, rows: seq<Row>)
    ensures Gather(emit, rows).None? <==> exists i :: 0 <= i < |rows| && emit(rows[i]).None?
    decreases |rows|
  {
    if rows != [] {
      var init := rows[..|rows| - 1];
      GatherThrows(emit, init);
      if exists i :: 0 <= i < |init| && emit(init[i]).None? {
        var i :| 0 <= i < |init| && emit(init[i]).None?;
        assert rows[i] == init[i];
      }
      if exists i :: 0 <= i < |rows| && emit(rows[i]).None? {
        var i :| 0 <= i < |rows| && emit(rows[i]).None?;
        if i < |init| { assert init[i] == rows[i]; }
      }
    }
  }

  /** The measurements of a run throw exactly when one of its rows throws. */
  lemma EmitRowsThrows(profile: Profile, rows: seq<Row>)
    ensures EmitRows(profile, rows).None? <==> exists i :: 0 <= i < |rows| && EmitRow(profile, rows[i]).None?
  {
    GatherThrows(RowEmitter(profile), rows);
    assert forall i :: 0 <= i < |rows| ==> RowEmitter(profile)(rows[i]) == EmitRow(profile, rows[i]);
  }

  /** One more row: its output is appended, or the run fails. */
  lemma GatherSnoc(emit: Row -> Option<seq<Measurement>>, rows: seq<Row>, row: Row)
    ensures Gather(emit, rows + [row]) ==
      var init := Gather(emit, rows);
      var last := emit(row);
      if init.None? || last.None? then None else Some(init.value + last.value)
  {
    assert (rows + [row])[..|rows|] == rows;
  }

  /** One more row: its measurements are appended, or the run throws. */
  lemma EmitRowsSnoc(profile: Profile, rows: seq<Row>, row: Row)
    ensures EmitRows(profile, rows + [row]) ==
      var init := EmitRows(profile, rows);
      var last := EmitRow(profile, row);
      if init.None? || last.None? then None else Some(init.value + last.value)
  {
    GatherSnoc(RowEmitter(profile), rows, row);
  }

  /** Gathering `a + b` gathers `a`, then `b`. */
  lemma {:induction false} GatherAppend(emit: Row -> Option<seq<Measurement>>, a: seq<Row>, b: seq<Row>)
    ensures Gather(emit, a + b).Some? <==> Gather(emit, a).Some? && Gather(emit, b).Some?
    ensures Gather(emit, a + b).Some? ==> Gather(emit, a + b).value == Gather(emit, a).value + Gather(emit, b).value
    decreases |b|
  {
    if b == [] {
      assert a + b == a;
    } else {
      var b' := b[..|b| - 1];
      var row := b[|b| - 1];
      assert b == b' + [row];
      assert a + b == (a + b') + [row];
      GatherAppend(emit, a, b');
      GatherSnoc(emit, a + b', row);
      GatherSnoc(emit, b', row);
      if Gather(emit, a).Some? && Gather(emit, b').Some? && emit(row).Some? {
        var x, y, z := Gather(emit, a).value, Gather(emit, b').value, emit(row).value;
        assert x + y + z == x + (y + z);
      }
    }
  }

  /** Rows are emitted in document order: the measurements of `a + b` are those of `a` followed by those of `b`. */
  lemma EmitRowsAppend(profile: Profile, a: seq<Row>, b: seq<Row>)
    ensures EmitRows(profile, a + b).Some? <==> EmitRows(profile, a).Some? && EmitRows(profile, b).Some?
    ensures EmitRows(profile, a + b).Some? ==>
      EmitRows(profile, a + b).value == EmitRows(profile, a).value + EmitRows(profile, b).value
  {
    GatherAppend(RowEmitter(profile), a, b);
  }

  /** A run whose first `k` rows throw throws as a whole. */
  lemma EmitRowsPrefixThrows(profile: Profile, rows: seq<Row>, k: nat)
    requires k <= |rows| && EmitRows(profile, rows[..k]).None?
    ensures EmitRows(profile, rows).None?
  {
    assert rows[..k] + rows[k..] == rows;
    GatherAppend(RowEmitter(profile), rows[..k], rows[k..]);
  }

  /**
   * One step of a row loop: with the measurements `acc` of the first `i`
   * rows in hand, row `i` either throws the whole run or extends `acc`.
   */
  lemma EmitRowsStep(profile: Profile, rows: seq<Row>, i: nat, acc: seq<Measurement>, next: Option<seq<Measurement>>)
    requires i < |rows| && EmitRows(profile, rows[..i]) == Some(acc) && next == EmitRow(profile, rows[i])
    ensures next.None? ==> EmitRows(profile, rows).None?
    ensures next.Some? ==> EmitRows(profile, rows[..i + 1]) == Some(acc + next.value)
  {
    assert rows[..i + 1] == rows[..i] + [rows[i]];
    EmitRowsSnoc(profile, rows[..i], rows[i]);
    if next.None? {
      EmitRowsPrefixThrows(profile, rows, i + 1);
    }
  }

  /** Every element of a gathered run comes from one of its rows. */
  lemma {:induction false} GatherOrigin(emit: Row -> Option<seq<Measurement>>, rows: seq<Row>, m: Measurement)
    requires Gather(emit, rows).Some? && m in Gather(emit, rows).value
    ensures exists i :: 0 <= i < |rows| && emit(rows[i]).Some? && m in emit(rows[i]).value
    decreases |rows|
  {
    var init := rows[..|rows| - 1];
    var last := emit(rows[|rows| - 1]).value;
    if m in last {
      assert emit(rows[|rows| - 1]).Some?;
    } else {
      GatherOrigin(emit, init, m);
      var i :| 0 <= i < |init| && emit(init[i]).Some? && m in emit(init[i]).value;
      assert rows[i] == init[i];
    }
  }

  /** Every measurement of a run comes from one of its rows. */
  lemma EmitRowsOrigin(profile: Profile, rows: seq<Row>, m: Measurement)
    requires EmitRows(profile, rows).Some? && m in EmitRows(profile, rows).value
    ensures exists i :: 0 <= i < |rows| && EmitRow(profile, rows[i]).Some? && m in EmitRow(profile, rows[i]).value
  {
    GatherOrigin(RowEmitter(profile), rows, m);
    var i :| 0 <= i < |rows| && RowEmitter(profile)(rows[i]).Some? && m in RowEmitter(profile)(rows[i]).value;
    assert RowEmitter(profile)(rows[i]) == EmitRow(profile, rows[i]);
  }

  /** A gathered run is no longer than `k` per row when no row gives more than `k`. */
  lemma {:induction false} GatherCount(emit: Row -> Option<seq<Measurement>>, rows: seq<Row>, k: nat)
    requires Gather(emit, rows).Some?
    requires forall i :: 0 <= i < |rows| && emit(rows[i]).Some? ==> |emit(rows[i]).value| <= k
    ensures |Gather(emit, rows).value| <= k * |rows|
    decreases |rows|
  {
    if rows != [] {
      var init := rows[..|rows| - 1];
      var row := rows[|rows| - 1];
      assert Gather(emit, init).Some? && emit(row).Some?;
      assert forall i :: 0 <= i < |init| ==> init[i] == rows[i];
      GatherCount(emit, init, k);
      MultiplySucc(k, |init|);
    }
  }

  /** A run emits at most one measurement per row and column. */
  lemma EmitRowsCount(profile: Profile, rows: seq<Row>)
    requires EmitRows(profile, rows).Some?
    ensures |EmitRows(profile, rows).value| <= |profile.columns| * |rows|
  {
    var emit := RowEmitter(profile);
    forall i | 0 <= i < |rows| && emit(rows[i]).Some?
      ensures |emit(rows[i]).value| <= |profile.columns|
    {
      assert emit(rows[i]) == EmitColumns(profile, rows[i], profile.columns);
      EmitColumnsThrows(profile, rows[i], profile.columns);
      EmitColumnsFields(profile, rows[i], profile.columns);
    }
    GatherCount(emit, rows, |profile.columns|);
  }

  lemma MultiplySucc(k: nat, n: nat)
    ensures k * (n + 1) == k * n + k
  {
  }


  /** Every measurement of a run carries the shared fields of the row it came from. */
  lemma EmitRowsFields(profile: Profile, rows: seq<Row>, m: Measurement)
    requires EmitRows(profile, rows).Some? && m in EmitRows(profile, rows).value
    ensures exists i :: 0 <= i < |rows| && FromRow(m, profile, rows[i])
  {
    EmitRowsOrigin(profile, rows, m);
    var i :| 0 <= i < |rows| && EmitRow(profile, rows[i]).Some? && m in EmitRow(profile, rows[i]).value;
    EmitColumnsThrows(profile, rows[i], profile.columns);
    EmitColumnsFields(profile, rows[i], profile.columns);
  }

  /** Every measurement of a run carries the reading of one mapped cell of one of its rows. */
  lemma EmitRowsReading(profile: Profile, rows: seq<Row>, m: Measurement)
    requires DistinctParameters(profile.columns)
    requires EmitRows(profile, rows).Some? && m in EmitRows(profile, rows).value
    ensures exists i, j :: (0 <= i < |rows| && 0 <= j < |profile.columns|
      && Readable(rows[i], profile.columns[j].index)
      && m.parameter == profile.columns[j].parameter
      && profile.read(CellData(rows[i], profile.columns[j])).Some?
      && m.value == InMicrograms(m.parameter, profile.read(CellData(rows[i], profile.columns[j])).value))
  {
    var cols := profile.columns;
    EmitRowsOrigin(profile, rows, m);
    var i :| 0 <= i < |rows| && EmitRow(profile, rows[i]).Some? && m in EmitRow(profile, rows[i]).value;
    EmitColumnsThrows(profile, rows[i], cols);
    EmitColumnsFields(profile, rows[i], cols);
    EmitColumnsValued(profile, rows[i], cols);
    var j :| 0 <= j < |cols| && m.parameter == cols[j].parameter;
    assert Readable(rows[i], cols[j].index);
  }

  // ---------------------------------------------------------------------
  // fetchData
  // ---------------------------------------------------------------------

  const LoadFailure: string := "Failure to load data url."
  const ParseFailure: string := "Failure to parse data."
  const UnknownError: string := "Unknown adapter error"

  /** What `formatData` returns: `{name, measurements}`. */
  datatype Formatted = Formatted(name: string, measurements: seq<Measurement>)

  /** How a `formatData` call ends: it throws, or returns a value (None standing for `undefined`). */
  datatype FormatOutcome = Threw | Returned(data: Option<Formatted>)

  /** What the `request` callback receives: a transport error, or a response with its status and (parsed) body. */
  datatype Response = TransportError | Response(statusCode: int, body: Page)

  /** The argument(s) `cb` is called with: `cb({message})` or `cb(null, data)`. */
  datatype CallbackResult = Failed(message: string) | Delivered(data: Formatted)

  predicate Loaded(response: Response) {
    response.Response? && response.statusCode == 200
  }

  /**
   * The `try` block of `fetchData`: an exception becomes the generic adapter
   * error, an `undefined` result the parse failure, anything else is passed on.
   */
  function Settle(outcome: FormatOutcome): (r: CallbackResult)
    ensures r.Delivered? <==> outcome.Returned? && outcome.data.Some?
    ensures r == Failed(UnknownError) <==> outcome.Threw?
    ensures r == Failed(ParseFailure) <==> outcome == Returned(None)
    ensures outcome.Returned? && outcome.data.Some? ==> r == Delivered(outcome.data.value)
  {
    match outcome
    case Threw => Failed(UnknownError)
    case Returned(None) => Failed(ParseFailure)
    case Returned(Some(data)) => Delivered(data)
  }
}
