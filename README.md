# Three Chinese air-quality adapters of openaq-fetch, modelled in Dafny

openaq-fetch gathers air-quality measurements from many sources through one
adapter per source. Each adapter exposes `fetchData(source, cb)`. It requests
the source URL, turns the page into a list of measurements with
`formatData`, and hands `{name: 'unused', measurements}` or an error message
to `cb`. This project models three adapters that scrape HTML pages:

- `adapters/pm25s.js` reads one city page. A `.date` label holds the hour as
  digit runs (year, month, day, hour). A `#title` label holds the city name
  followed by "PM2.5". Each station is one `div` whose children 2 to 7 hold
  pm25, pm10, co, no2, so2 and o3.
- `adapters/airlevel.js` reads a page whose `.label-info` label holds year,
  month, day, hour and minute. Its `.text-center` table has a header row,
  then one row per station, with pm25 and pm10 in children 3 and 4. A cell's
  reading is the first run of digits in its text.
- `adapters/pm25in.js` reads one city page. It hands the `.live_data_time`
  label to `getDate` unchanged and takes the city from `.city_name`. Every
  row of the `#detail-data` table is a station row, the first one included.
  Children 4 to 8 and 10 hold pm25, pm10, co, no2, o3 and so2; child 9, the
  8-hour ozone average, is not read.

Every measurement carries these fields:

- the transliterated station key as `location`;
- the parameter name;
- the unit `µg/m³`;
- a one-hour averaging period;
- the run's date;
- the reading, times 1000 for carbon monoxide (mg/m³ to µg/m³);
- the adapter's attribution;
- coordinates, when the location table has the key.

The coordinates table holds `[longitude, latitude]`; the adapters swap the
pair into `{latitude, longitude}`.

## How the model is laid out

- `util.dfy` (`Util`): `Option`, which stands for JavaScript's
  `null`/`undefined`.
- `jsregex.dfy` (`JsRegex`): the regular expressions the adapters use.
  - `/\s+\s|\\r|\\n/g` deletes every run of two or more white-space
    characters and the two-character texts `\r` and `\n`. It keeps a single
    space and the real line-break characters when they stand alone.
  - `/[PM2.5]/g` is a character class: it deletes every `P`, `M`, `2`, `.`
    and `5`.
  - `match(/\d+/g)` gives the digit runs. Indexing past the last run gives
    `undefined`, which string concatenation writes as "undefined".
  - `match(/\d+/)` gives the first digit run.
- `jsnumber.dfy` (`JsNumber`): `Number(s)`, the global `isNaN(s)` and
  `parseFloat(s)` on strings, after the StringToNumber grammar of ECMAScript
  (section 7.1.4.1.1) and section 19.2.4. Values are exact reals.
- `measurements.dfy` (`Measurements`): the code the three adapters share.
  - The measurement record and the page.
  - A page is a date label, a city label and rows of cells. Each cell has
    the `.text()` of the child and `children[0].data`; the latter is None
    when the child has no first child or its first child has no `data`
    (text and comment nodes have it, elements do not).
  - The collaborators `tr`, `getDate` and the location table, passed in as
    values.
  - A row/column emission specification, generic over the column map and
    the cell reader, with its lemmas. The run over the rows is `Gather`,
    a fold over any per-row emitter; `EmitRows` instantiates it with the
    key loop of one row.
  - The mapping from `formatData`'s outcome to the callback.
- `pm25s.dfy` (`Pm25s`), `airlevel.dfy` (`AirLevel`), `pm25in.dfy`
  (`Pm25In`): each holds the adapter's column map, date assembly and
  coordinate lookup. It also holds `Format`, the function that specifies
  `formatData`, and the methods `FormatData`, `FormatRows`,
  `FormatRow` and `FormatCell`, which keep the source's row loop, key loop
  and the body of the key loop. `FetchData` and the adapter's
  properties complete each module.

### Behaviour worth knowing

- The pm25s and pm25in cell filter is `isNaN` of the cleaned text, and
  `isNaN("")` is false because blank text converts to 0. A blank cell
  therefore yields a measurement whose value is `parseFloat("")`, which is
  NaN (`Pm25s.BlankCellEmitsNaN`, `Measurements.BlankReadsNaN`). A negative
  reading passes unchanged (`Pm25s.NegativeCellKept`). Hexadecimal text
  such as "0x1A" passes the filter but is read as 0
  (`Measurements.HexTextReadsZero`).
- airlevel skips the first table row, whatever it holds
  (`AirLevel.HeaderIgnored`). pm25in reads every row, so a first row
  without eleven children makes the whole run fail
  (`Pm25In.HeaderRowThrows`).
- The date text is assembled month/day/year, but `getDate` parses it with
  the pattern `YYYY-MM-DD HH:mm:ss`. `getDate` is a parameter of the model,
  so what it makes of that text is not modelled.
- A date label with too few digit runs is not an error. The missing parts
  become the text "undefined" (`Pm25s.DateFromShortLabel`). The airlevel
  code reads a fifth (minute) run, while its comment describes a label with
  hour but no minute. Such a label yields `…:undefined:00`
  (`AirLevel.DateWithoutMinute`).
- `fetchData` never reports "Failure to parse data.", because `formatData`
  either throws or returns an object.

## Model

| member | source | states |
|---|---|---|
| JsRegex.StripBreaks | adapters/pm25s.js:96 | the white-space and `\r`/`\n` clean-up never lengthens the text; what it deletes and keeps is stated case by case by the four lemmas below, and as a whole by `StripKeepsNonSpace` |
| JsRegex.StripDropsSpaceRun | adapters/pm25s.js:96 | a run of two or more white-space characters, followed by the end or by a character that is not white space, is deleted |
| JsRegex.StripKeepsLoneSpace | adapters/pm25s.js:96 | a single white-space character not followed by white space is kept |
| JsRegex.StripDropsEscape | adapters/pm25in.js:86 | the two-character texts `\r` and `\n` (a backslash, then the letter) are deleted |
| JsRegex.StripKeepsOther | adapters/pm25in.js:90 | every other character is kept, the letters r and n and a backslash not followed by r or n included |
| JsRegex.DropEscapesKeeps | adapters/pm25in.js:86 | deleting the `\r`/`\n` texts leaves text that holds none unchanged |
| JsRegex.StripKeepsNonSpace | adapters/pm25s.js:96 | apart from white space, the clean-up keeps exactly the characters that deleting the `\r`/`\n` texts keeps, in order |
| JsRegex.StripKeepsText | adapters/airlevel.js:94 | in text without `\r`/`\n` texts every character that is not white space survives the clean-up, in order |
| JsRegex.StripKeepsTidy | adapters/pm25in.js:99 | text without two adjacent white-space characters and without the two-character texts `\r`/`\n` is left unchanged (so "-5" or "0x1A" reach `isNaN` as written) |
| JsRegex.StripBlank | adapters/pm25s.js:105 | cleaning blank cell text leaves blank text |
| JsRegex.StripIsNotIdempotent | adapters/pm25s.js:96 | one pass of the global replace is not a fixed point: "a \\r b" becomes "a  b", and a second pass would give "ab" |
| JsRegex.RemovePm25Chars | adapters/pm25s.js:92 | the city name holds exactly the characters of the title that are not P, M, 2, `.` or 5, each as often as in the title, and is no longer than the title; their order is fixed by the two lemmas below |
| JsRegex.RemovePm25CharsIdempotent | adapters/pm25s.js:92 | removing the class characters a second time changes nothing |
| JsRegex.RemovePm25CharsSingle | adapters/pm25s.js:92 | one character is deleted when it is P, M, 2, `.` or 5 and kept otherwise |
| JsRegex.RemovePm25CharsAppend | adapters/pm25s.js:92 | the removal on `a + b` is the removal on `a` followed by the removal on `b`, so the kept characters stay in order |
| JsRegex.DigitRuns | adapters/pm25s.js:86 | `match(/\d+/g)` is empty (null) exactly when the text has no digit; every match is a non-empty run of digits |
| JsRegex.DigitRunsOfInterleave | adapters/pm25s.js:86 | for a text made of digit runs separated by non-empty, digit-free text, the matches are exactly those runs, in order |
| JsRegex.FirstDigitRun | adapters/airlevel.js:99 | `match(/\d+/)` is null exactly when the text has no digit; otherwise it is a non-empty run of digits |
| JsRegex.FirstDigitRunIsFirstMatch | adapters/airlevel.js:99 | the single match is the first of the global matches |
| JsNumber.BlankText | adapters/pm25s.js:106-107 | blank text converts to 0 under `Number`, so `isNaN` is false, while `parseFloat` of it is NaN |
| JsNumber.Numeral | adapters/airlevel.js:100-101 | a non-empty digit string converts to its decimal value under both `Number` and `parseFloat` |
| JsNumber.DecimalConverts | adapters/airlevel.js:113 | for a non-negative whole number below 10^21, whose `String` is its plain decimal numeral, `Number` and `parseFloat` of that numeral give the number back: re-parsing an airlevel reading keeps its value |
| JsNumber.MinusFive | adapters/pm25s.js:106-107 | "-5" is a number to both `isNaN` and `parseFloat`; negative readings are not filtered |
| JsNumber.TimesThousand | adapters/pm25s.js:109-111 | the CO conversion multiplies a finite reading by 1000 and leaves NaN and the infinities unchanged |
| Measurements.Lookup | adapters/pm25s.js:48-57 | coordinates exist exactly when the key is in the table; latitude is the entry's second component and longitude its first |
| Measurements.BlankReadsNaN | adapters/pm25s.js:105-107 | the pm25s/pm25in cell test reads a blank cell, with value NaN |
| Measurements.DigitsRead | adapters/pm25in.js:99-101 | the pm25s/pm25in cell test reads a plain digit string as its decimal value |
| Measurements.KeyInjective | adapters/pm25s.js:98-103 | the `values` keys the adapters emit as `parameter` are distinct for distinct parameters |
| Measurements.HexTextReadsZero | adapters/pm25in.js:99-101 | "0x1A" is 26 to `Number`, so it passes the `isNaN` filter, yet the reading emitted is `parseFloat`'s 0 |
| Measurements.EmitColumnsThrows | adapters/pm25s.js:104-105 | a row's key loop throws exactly when one mapped child is missing or its first child has no `data` |
| Measurements.ColumnKept | adapters/pm25s.js:106-129 | helper (unfolds `EmitColumn` for the loop proof): a readable cell whose reading is accepted gives exactly one measurement, built from that reading |
| Measurements.ColumnDropped | adapters/pm25s.js:106 | helper (unfolds `EmitColumn` for the loop proof): a readable cell whose reading is rejected gives no measurement |
| Measurements.EmitColumnsContent | adapters/pm25s.js:104-131 | for a readable row: at most one measurement per column; a column's parameter appears exactly when the reader accepts its cell, carrying that reading (times 1000 for CO); parameters in column-map order; every measurement carries the row's location, coordinates, unit, period, date and attribution |
| Measurements.EmitColumnsFields | adapters/pm25s.js:113-129 | every measurement of a row carries the shared fields and the parameter of some column, and there are at most as many as columns |
| Measurements.EmitColumnsPresent | adapters/pm25s.js:106 | a column's parameter is emitted exactly when the reader accepts its cell |
| Measurements.EmitColumnsValued | adapters/pm25s.js:107-119 | the measurement for a column's parameter carries the cell's reading, times 1000 for CO |
| Measurements.EmitColumnsOrdered | adapters/pm25s.js:104 | measurements come in the order the keys were added to `values` |
| Measurements.GatherThrows | adapters/pm25s.js:94-132 | for any per-row emitter, the gathered run fails exactly when one of its rows fails |
| Measurements.GatherAppend | adapters/pm25s.js:94-132 | for any per-row emitter, gathering rows `a + b` succeeds exactly when both halves do, and yields the output of `a` followed by that of `b` |
| Measurements.GatherOrigin | adapters/pm25s.js:94-132 | for any per-row emitter, every element of the gathered output comes from one row |
| Measurements.GatherCount | adapters/pm25s.js:94-132 | when no row gives more than `k` elements, a gathered run has at most `k` per row |
| Measurements.EmitRowsThrows | adapters/pm25s.js:94-132 | a run throws exactly when one of its rows throws |
| Measurements.EmitRowsSnoc | adapters/pm25s.js:94-132 | helper (unfolds `Gather` for the loop proof): one more row appends its measurements to the run, or makes the run throw |
| Measurements.EmitRowsStep | adapters/pm25s.js:94-132 | one step of a row loop: a throwing row makes the whole run throw, any other extends the measurements gathered so far |
| Measurements.EmitRowsPrefixThrows | adapters/pm25s.js:94-132 | once the first rows of a run throw, the whole run throws |
| Measurements.EmitRowsAppend | adapters/pm25s.js:94-132 | the measurements of rows `a + b` are those of `a` followed by those of `b` |
| Measurements.EmitRowsOrigin | adapters/pm25s.js:94-132 | every measurement of a run is one of some row's measurements |
| Measurements.EmitRowsCount | adapters/pm25s.js:94-132 | a run emits at most (number of columns) × (number of rows) measurements |
| Measurements.EmitRowsFields | adapters/pm25s.js:113-129 | every measurement of a run carries the shared fields of one of its rows |
| Measurements.EmitRowsReading | adapters/pm25s.js:104-129 | every measurement of a run carries the accepted reading of one mapped cell of one of its rows, with that column's parameter |
| Measurements.Settle | adapters/pm25s.js:27-38 | data is delivered exactly when `formatData` returns an object, and the delivered data is the object `formatData` returned; the generic adapter error is reported exactly when it throws; the parse failure exactly when it returns `undefined` |
| Pm25s.AssembleDate | adapters/pm25s.js:86-88 | the date text is absent (indexing null throws) exactly when the label has no digit |
| Pm25s.GetCoordinates | adapters/pm25s.js:48-57 | coordinates exist exactly when city + station is a key of the table, with latitude and longitude swapped out of the `[lon, lat]` entry |
| Pm25s.City | adapters/pm25s.js:92 | the city name contains no P, M, 2, `.` or 5 |
| Pm25s.CompleteIsReadable | adapters/pm25s.js:98-105 | a row is complete (children 2 to 7 present with a first child that has `data`) exactly when every mapped cell can be read |
| Pm25s.FormatData | adapters/pm25s.js:65-137 | the method's outcome is `Format`: it throws when the label has no digit, otherwise it throws or returns exactly the measurements `EmitRows` gives for the rows |
| Pm25s.FormatRows | adapters/pm25s.js:94-132 | the row loop yields exactly `EmitRows` of the rows: each row's measurements appended in document order, None as soon as a row throws |
| Pm25s.FormatRow | adapters/pm25s.js:95-131 | the key loop over one station row computes that row's emission, or throws on an incomplete row |
| Pm25s.FormatCell | adapters/pm25s.js:105-130 | one pass of the key loop computes that column's emission: nothing when `isNaN` rejects the cleaned text, otherwise the one measurement `Measure` builds from its `parseFloat` reading; None when the cell cannot be read |
| Pm25s.FetchData | adapters/pm25s.js:20-40 | a transport error or non-200 status is a load failure; otherwise the outcome of `formatData` is settled; the generic error is reported exactly when the label has no digit or some row is incomplete; the parse failure is never reported |
| Pm25s.RowThrows | adapters/pm25s.js:98-105 | a row throws exactly when it is incomplete |
| Pm25s.FormatThrows | adapters/pm25s.js:86-132 | a run throws exactly when the label has no digit or some row is incomplete, and never returns `undefined` |
| Pm25s.RowShape | adapters/pm25s.js:104-129 | a complete row emits at most six measurements, in the order pm25, pm10, co, no2, so2, o3, each with location `tr(city + station)`, the coordinates of city + station, the fixed unit, period and attribution and the run's date |
| Pm25s.RowReadings | adapters/pm25s.js:104-119 | for a complete row, a column's parameter is emitted exactly when `isNaN` of its cleaned text is false, with value `parseFloat` of that text, times 1000 for CO |
| Pm25s.FormatFields | adapters/pm25s.js:86-136 | a run that returns yields name "unused", at most six measurements per row, all with the run's date and fixed fields, and the location and coordinates of one of the rows |
| Pm25s.RowsInOrder | adapters/pm25s.js:94-132 | measurements follow document order: rows `a + b` emit those of `a`, then those of `b` |
| Pm25s.DateFromLabel | adapters/pm25s.js:86-88 | a label with year, month, day and hour runs becomes "month/day/year hour:00:00" |
| Pm25s.DateFromShortLabel | adapters/pm25s.js:86-88 | a label with one digit run does not throw: the missing parts are written "undefined" |
| Pm25s.BlankCellEmitsNaN | adapters/pm25s.js:105-119 | a blank mapped cell is emitted, with value NaN |
| Pm25s.NegativeCellKept | adapters/pm25s.js:105-119 | a pm25 cell "-5" is emitted with value -5 |
| AirLevel.AssembleDate | adapters/airlevel.js:85-88 | the date text is absent (indexing null throws) exactly when the label has no digit |
| AirLevel.GetCoordinates | adapters/airlevel.js:47-56 | coordinates exist exactly when the station name alone is a key, with latitude and longitude swapped out of the entry |
| AirLevel.DigitReading | adapters/airlevel.js:99-101 | a cell is read exactly when its text has a digit, and its reading is the decimal value of the first digit run |
| AirLevel.CompleteIsReadable | adapters/airlevel.js:96-99 | a row is complete (children 3 and 4 present with a first child that has `data`) exactly when both mapped cells can be read |
| AirLevel.FormatData | adapters/airlevel.js:64-132 | the method's outcome is `Format`: it throws when the label has no digit, otherwise it throws or returns the measurements of the rows after the header |
| AirLevel.FormatRows | adapters/airlevel.js:91-127 | the `each` callback yields exactly `EmitRows` of the rows after the first, in document order, None as soon as one of them throws |
| AirLevel.DataRowsStep | adapters/airlevel.js:91-92 | row `i` of the table (for `i` from 1) is data row `i - 1`, and the data rows of the first `i + 1` rows are a prefix of all data rows |
| AirLevel.DataRowsAfterHeader | adapters/airlevel.js:91-92 | helper (unfolds `DataRows`): the data rows under a header are exactly the rows after it |
| AirLevel.FormatReturns | adapters/airlevel.js:85-131 | helper (unfolds `Format`): a run that returns has a date and returns the measurements of its data rows, named "unused" |
| AirLevel.DataMeasurement | adapters/airlevel.js:98-113 | every measurement of the data rows is pm25 or pm10 with a non-negative whole value |
| AirLevel.StationOfMeasurement | adapters/airlevel.js:94-121 | every measurement of the data rows carries the fixed fields and the location and coordinates of one row after the header |
| AirLevel.FormatRow | adapters/airlevel.js:93-125 | the key loop over one station row computes that row's emission, or throws on an incomplete row |
| AirLevel.FormatCell | adapters/airlevel.js:99-123 | one pass of the key loop computes that column's emission: nothing when the cell has no digit run, otherwise the one measurement `Measure` builds from its reading; None when the cell cannot be read |
| AirLevel.FetchData | adapters/airlevel.js:20-40 | load failure without a 200 response; otherwise the settled outcome; the generic error exactly when the label has no digit or some row after the first is incomplete; never the parse failure |
| AirLevel.RowThrows | adapters/airlevel.js:96-99 | a row throws exactly when it is incomplete |
| AirLevel.FormatThrows | adapters/airlevel.js:85-127 | a run throws exactly when the label has no digit or some row after the header is incomplete, and never returns `undefined` |
| AirLevel.HeaderIgnored | adapters/airlevel.js:91-92 | replacing the first row by any row leaves the outcome unchanged |
| AirLevel.RowReadings | adapters/airlevel.js:98-113 | for a complete row, a column's parameter is emitted exactly when its text has a digit, with the decimal value of the first digit run |
| AirLevel.FormatFields | adapters/airlevel.js:91-131 | a run that returns yields at most two measurements per station row, only pm25 and pm10, every value a non-negative whole number, all with the run's date and fixed fields and the location and coordinates of one of the rows after the header |
| AirLevel.RowsInOrder | adapters/airlevel.js:91-127 | station rows `a + b` under a header emit the measurements of `a`, then those of `b` |
| AirLevel.DateFromLabel | adapters/airlevel.js:85-88 | a label with year, month, day, hour and minute runs becomes "month/day/year hour:minute:00" |
| AirLevel.DateWithoutMinute | adapters/airlevel.js:83-88 | a label with year, month, day and hour only becomes "month/day/year hour:undefined:00" |
| Pm25In.GetCoordinates | adapters/pm25in.js:48-57 | coordinates exist exactly when city + station is a key, with latitude and longitude swapped out of the entry |
| Pm25In.City | adapters/pm25in.js:86 | the city name is no longer than the label; apart from white space it holds exactly the label's characters left after deleting the `\r`/`\n` texts, in order, and so every non-white-space character of a label without such texts |
| Pm25In.CompleteIsReadable | adapters/pm25in.js:92-99 | a row is complete (eleven children, 4 to 8 and 10 with a first child that has `data`) exactly when every mapped cell can be read |
| Pm25In.FormatData | adapters/pm25in.js:65-131 | the method's outcome is `Format`: it throws or returns exactly the measurements `EmitRows` gives for every row of the table |
| Pm25In.FormatRows | adapters/pm25in.js:88-126 | the row loop yields exactly `EmitRows` of all rows, in document order, None as soon as a row throws |
| Pm25In.FormatRow | adapters/pm25in.js:89-125 | the key loop over one station row computes that row's emission, or throws on an incomplete row |
| Pm25In.FormatCell | adapters/pm25in.js:99-124 | one pass of the key loop computes that column's emission: nothing when `isNaN` rejects the cleaned text, otherwise the one measurement `Measure` builds from its `parseFloat` reading; None when the cell cannot be read |
| Pm25In.FetchData | adapters/pm25in.js:20-40 | load failure without a 200 response; otherwise the settled outcome; the generic error exactly when some row is incomplete; never the parse failure |
| Pm25In.RowThrows | adapters/pm25in.js:92-99 | a row throws exactly when it is incomplete |
| Pm25In.FormatThrows | adapters/pm25in.js:83-126 | a run throws exactly when some row is incomplete (the date never throws), and never returns `undefined` |
| Pm25In.HeaderRowThrows | adapters/pm25in.js:88-99 | no row is skipped: an incomplete first row makes the run throw |
| Pm25In.EightHourOzoneIgnored | adapters/pm25in.js:96-97 | child 9 is never read: replacing it leaves the row's emission unchanged |
| Pm25In.SameCells | adapters/pm25in.js:98-99 | two rows with the same station text and the same mapped cells emit the same |
| Pm25In.RowShape | adapters/pm25in.js:98-123 | a complete row emits at most six measurements, in the order pm25, pm10, co, no2, o3, so2, with location `tr(city + station)`, the coordinates of city + station and the fixed fields |
| Pm25In.RowReadings | adapters/pm25in.js:99-113 | for a complete row, a column's parameter is emitted exactly when `isNaN` of its cleaned text is false, with value `parseFloat` of that text, times 1000 for CO |
| Pm25In.FormatFields | adapters/pm25in.js:83-130 | a run that returns yields name "unused", at most six measurements per row, all dated `getDate` of the raw label, with the fixed fields and the location and coordinates of one of the rows |
| Pm25In.RowsInOrder | adapters/pm25in.js:88-126 | rows `a + b` emit the measurements of `a`, then those of `b` |

## Left out

- The HTTP request, its timeout and the callback plumbing are not modelled.
  `FetchData` takes the response (a transport error, or a status and a page)
  and returns the single argument it would pass to `cb`. If `cb` itself
  throws inside the `try`, `cb` is called a second time with the generic
  error; that is not modelled.
- HTML parsing and cheerio selection are not modelled. The page is given
  already selected: the label texts, and the rows as sequences of cells. A
  cell is its `.text()` and its first child's `data`.
- `tr` (transliteration) and `getDate` (moment-timezone parsing in
  Asia/Shanghai) are opaque functions supplied by the caller. What moment
  makes of a month/day/year text under a `YYYY-MM-DD` pattern is not
  captured.
- The location table is a map from key to `(longitude, latitude)`. Keys that
  JavaScript objects inherit (such as `constructor`) are not modelled.
  Neither are table entries that are not two-element arrays.
- Numbers are exact reals. IEEE-754 rounding, overflow to Infinity and
  negative zero are not modelled. `parseFloat` of an already numeric value
  (the `value:` field) is modelled as the identity. JavaScript guarantees
  that `String` of a number reads back as the same number.
- `JsNumber.DecimalConverts`: proves that read-back only for non-negative
  whole numbers below 10^21 written as plain numerals, which covers every
  airlevel reading. The pm25s and pm25in re-parse of negative, fractional,
  NaN or exponent-written values relies on the guarantee above without a
  proof, because `Number::toString` is not modelled.
- `isNaN` applied to airlevel's one-element match array converts the array
  to its only string. The model applies `isNaN` to that string directly.
- `JsRegex.StripBreaks`: its own contract states only the length bound.
  What it deletes and keeps is stated by the lemmas named in its row.
- The module-level `name` exports and the `source` argument, which
  `formatData` does not use, are not modelled.
