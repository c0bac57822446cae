/** The Shows sheet: three header rows (the "Availability" banner, month
    labels, field names with day labels) followed by one row per show, and
    the codec for a single show row. */
module ShowCodec {
  import opened Results
  import opened Calendar
  import opened Text
  import opened JavaNumbers
  import opened Domain
  import opened Failures
  import opened Grid
  import opened DateSchema

  const ShowsSheet: string := "Shows"

  /** Venue, city, latitude, longitude, duration, revenue, required: the columns before the dates. */
  const LeadingColumns: nat := 7

  const FieldHeaders: seq<string> :=
    ["Venue name", "City name", "Latitude", "Longitude", "Duration (in days)", "Revenue opportunity", "Required"]

  function Blanks(n: nat): (labels: seq<string>)
    ensures |labels| == n && forall j :: 0 <= j < n ==> labels[j] == ""
  {
    seq(n, _ => "")
  }

  /** The cell of date column `k`. */
  function DateCell(row: Row, k: nat): Cell {
    CellAt(row, LeadingColumns + k)
  }

  // ---------------------------------------------------------------------
  // Field codecs.

  /** A duration in days is accepted when twice it is a whole number from 1 up to
      `Integer.MAX_VALUE`, and is stored as that number of half days. */
  function DecodeDuration(at: Pos, duration: real): (r: Result<int, Error>)
    ensures r.Success? <==> IsIntegral(2.0 * duration) && 1.0 <= 2.0 * duration <= Int32Max as real
    ensures r.Success? ==> r.value as real == 2.0 * duration
    ensures r.Failure? ==>
      (r.error == DurationTooShort(at, duration) <==>
        IsIntegral(2.0 * duration) && Int32Min as real <= 2.0 * duration < 1.0)
    ensures r.Failure? ==> r.error in {DurationTooShort(at, duration), DurationNotHalfDayMultiple(at, duration)}
  {
    var halfDays := IntCast(duration * 2.0);
    if halfDays as real != duration * 2.0 then Failure(DurationNotHalfDayMultiple(at, duration))
    else if halfDays < 1 then Failure(DurationTooShort(at, duration))
    else Success(halfDays)
  }

  function EncodeDuration(halfDays: int): real {
    halfDays as real * 0.5
  }

  /** A revenue opportunity is accepted when it is a whole number in `int` range. */
  function DecodeRevenue(at: Pos, revenue: real): (r: Result<int, Error>)
    ensures r.Success? <==> IsIntegral(revenue) && Int32Min as real <= revenue <= Int32Max as real
    ensures r.Success? ==> r.value as real == revenue
    ensures r.Failure? ==> r.error == RevenueNotInteger(at, revenue)
  {
    var value := IntCast(revenue);
    if revenue != value as real then Failure(RevenueNotInteger(at, revenue)) else Success(value)
  }

  /** Every positive half-day count in `int` range survives the write and the read. */
  lemma DurationRoundTrip(at: Pos, halfDays: int)
    requires 1 <= halfDays <= Int32Max
    ensures DecodeDuration(at, EncodeDuration(halfDays)) == Success(halfDays)
  {
    var duration := EncodeDuration(halfDays);
    assert duration * 2.0 == halfDays as real;
    assert (halfDays as real).Floor == halfDays;
    assert IntCast(duration * 2.0) == halfDays;
  }

  /** The availability cells from date column `j` on. A cell with the unavailable fill
      marks its date unavailable; any other cell must read as empty text. */
  function DecodeAvailability(row: Row, sheet: string, r: nat, cols: seq<DateColumn>, j: nat): (res: Result<set<Date>, Error>)
    requires j <= |cols|
    ensures res.Success? <==> forall k :: j <= k < |cols| ==> StringValue(DateCell(row, k)) == Some("")
    ensures res.Success? ==>
      res.value == set k | j <= k < |cols| && !HasUnavailableFill(DateCell(row, k)) :: cols[k].date
    decreases |cols| - j
  {
    if j == |cols| then Success({})
    else
      var at := Pos(sheet, r, LeadingColumns + j);
      assert StringValue(DateCell(row, j)) == StringValue(CellAt(row, at.col));
      var text :- ReadString(row, at);
      if text != "" then Failure(AvailabilityCellNotEmpty(at, text))
      else
        var here := if HasUnavailableFill(DateCell(row, j)) then {} else {cols[j].date};
        var rest :- DecodeAvailability(row, sheet, r, cols, j + 1);
        Success(here + rest)
  }

  /** With distinct column dates, a date is available exactly when its cell, text or blank,
      lacks the unavailable fill. */
  lemma DateAvailability(row: Row, sheet: string, r: nat, cols: seq<DateColumn>, k: nat)
    requires k < |cols|
    requires forall i, j :: 0 <= i < j < |cols| ==> cols[i].date != cols[j].date
    requires DecodeAvailability(row, sheet, r, cols, 0).Success?
    ensures cols[k].date in DecodeAvailability(row, sheet, r, cols, 0).value <==> !HasUnavailableFill(DateCell(row, k))
  {
    var available := DecodeAvailability(row, sheet, r, cols, 0).value;
    if cols[k].date in available {
      var j :| 0 <= j < |cols| && !HasUnavailableFill(DateCell(row, j)) && cols[j].date == cols[k].date;
      assert j == k;
    }
  }

  // ---------------------------------------------------------------------
  // One show row.

  /** A show the writer can emit for the given date columns and the reader will take back. */
  predicate ValidShow(show: Show, cols: seq<DateColumn>) {
    && 1 <= show.halfDays <= Int32Max
    && Int32Min <= show.revenue <= Int32Max
    && show.available != {}
    && show.available <= set k | 0 <= k < |cols| :: cols[k].date
  }

  /** The seven leading cells of a show row, read and checked. */
  datatype ShowFields = ShowFields(venue: string, location: Location, halfDays: int, revenue: int, required: bool)

  /** The leading cells hold the types the reader asks for: text, text, four numbers, a flag. */
  predicate FieldCellsTyped(row: Row) {
    && StringValue(CellAt(row, 0)).Some? && StringValue(CellAt(row, 1)).Some?
    && NumericValue(CellAt(row, 2)).Some? && NumericValue(CellAt(row, 3)).Some?
    && NumericValue(CellAt(row, 4)).Some? && NumericValue(CellAt(row, 5)).Some?
    && (CellAt(row, 6).Bool? || CellAt(row, 6).Blank?)
  }

  /** Reads venue, city, latitude, longitude, duration, revenue and the required flag. */
  function DecodeFields(row: Row, sheet: string, r: nat): (res: Result<ShowFields, Error>)
    ensures res.Success? <==>
      && FieldCellsTyped(row)
      && DecodeDuration(Pos(sheet, r, 4), NumericValue(CellAt(row, 4)).value).Success?
      && DecodeRevenue(Pos(sheet, r, 5), NumericValue(CellAt(row, 5)).value).Success?
    ensures res.Success? ==> Some(res.value.venue) == StringValue(CellAt(row, 0))
    ensures res.Success? ==> Some(res.value.location.city) == StringValue(CellAt(row, 1))
    ensures res.Success? ==> Some(res.value.location.lat) == NumericValue(CellAt(row, 2))
    ensures res.Success? ==> Some(res.value.location.long) == NumericValue(CellAt(row, 3))
    ensures res.Success? ==>
      DecodeDuration(Pos(sheet, r, 4), NumericValue(CellAt(row, 4)).value) == Success(res.value.halfDays)
    ensures res.Success? ==>
      DecodeRevenue(Pos(sheet, r, 5), NumericValue(CellAt(row, 5)).value) == Success(res.value.revenue)
    ensures res.Success? ==> ReadBoolean(row, Pos(sheet, r, 6)) == Success(res.value.required)
  {
    var venue :- ReadString(row, Pos(sheet, r, 0));
    var city :- ReadString(row, Pos(sheet, r, 1));
    var lat :- ReadNumber(row, Pos(sheet, r, 2));
    var long :- ReadNumber(row, Pos(sheet, r, 3));
    var duration :- ReadNumber(row, Pos(sheet, r, 4));
    var halfDays :- DecodeDuration(Pos(sheet, r, 4), duration);
    var revenueValue :- ReadNumber(row, Pos(sheet, r, 5));
    var revenue :- DecodeRevenue(Pos(sheet, r, 5), revenueValue);
    var required :- ReadBoolean(row, Pos(sheet, r, 6));
    Success(ShowFields(venue, Location(city, lat, long), halfDays, revenue, required))
  }

  /** Reads the show on row `r`, giving it id `id`. */
  function DecodeShow(row: Row, sheet: string, r: nat, id: nat, cols: seq<DateColumn>): (res: Result<Show, Error>)
    ensures res.Success? ==> res.value.id == id && res.value.date == None
    ensures res.Success? ==> ValidShow(res.value, cols)
  {
    var fields :- DecodeFields(row, sheet, r);
    var available :- DecodeAvailability(row, sheet, r, cols, 0);
    if available == {} then Failure(NoAvailableDate(Pos(sheet, r, LeadingColumns - 1 + |cols|), fields.venue))
    else Success(Show(id, fields.venue, fields.location, fields.halfDays, fields.revenue, fields.required, available, None))
  }

  /** A show row is read exactly when its leading cells read and at least one date is available;
      a row whose cells read but whose dates are all unavailable is a no-available-date error. */
  lemma DecodeShowSucceeds(row: Row, sheet: string, r: nat, id: nat, cols: seq<DateColumn>)
    ensures DecodeShow(row, sheet, r, id, cols).Success? <==>
      && DecodeFields(row, sheet, r).Success?
      && DecodeAvailability(row, sheet, r, cols, 0).Success?
      && DecodeAvailability(row, sheet, r, cols, 0).value != {}
    ensures DecodeFields(row, sheet, r).Success? && DecodeAvailability(row, sheet, r, cols, 0) == Success({}) ==>
      DecodeShow(row, sheet, r, id, cols)
        == Failure(NoAvailableDate(Pos(sheet, r, LeadingColumns - 1 + |cols|), DecodeFields(row, sheet, r).value.venue))
  {
  }

  /** Every field of a read show comes from its cell of the row: venue and city from cells 0
      and 1, the coordinates from cells 2 and 3, the half days from the duration in cell 4, the
      revenue from cell 5, the required flag from cell 6 and the available dates from the date cells. */
  lemma DecodeShowCells(row: Row, sheet: string, r: nat, id: nat, cols: seq<DateColumn>, show: Show)
    requires DecodeShow(row, sheet, r, id, cols) == Success(show)
    ensures Some(show.venue) == StringValue(CellAt(row, 0))
    ensures Some(show.location.city) == StringValue(CellAt(row, 1))
    ensures Some(show.location.lat) == NumericValue(CellAt(row, 2))
    ensures Some(show.location.long) == NumericValue(CellAt(row, 3))
    ensures NumericValue(CellAt(row, 4)).Some?
      && DecodeDuration(Pos(sheet, r, 4), NumericValue(CellAt(row, 4)).value) == Success(show.halfDays)
    ensures NumericValue(CellAt(row, 5)).Some?
      && DecodeRevenue(Pos(sheet, r, 5), NumericValue(CellAt(row, 5)).value) == Success(show.revenue)
    ensures ReadBoolean(row, Pos(sheet, r, 6)) == Success(show.required)
    ensures DecodeAvailability(row, sheet, r, cols, 0) == Success(show.available)
  {
  }

  /** Writes a show: its fields, then one blank per date column, with the unavailable
      fill exactly on the dates the show is not available. */
  function EncodeShow(show: Show, cols: seq<DateColumn>): (row: Row)
    ensures |row| == LeadingColumns + |cols|
    ensures forall k :: 0 <= k < |cols| ==>
      row[LeadingColumns + k].Blank? && (row[LeadingColumns + k].fill == UnavailableFill <==> cols[k].date !in show.available)
  {
    [ Text(show.venue, NoFill), Text(show.location.city, NoFill), Number(show.location.lat), Number(show.location.long),
      Number(EncodeDuration(show.halfDays)), Number(show.revenue as real), Bool(show.required) ]
    + seq(|cols|, k requires 0 <= k < |cols| =>
        if cols[k].date in show.available then Blank(NoFill) else Blank(UnavailableFill))
  }

  /** Reading a written show gives the show back, with no assigned date. */
  lemma ShowRowRoundTrip(show: Show, cols: seq<DateColumn>, sheet: string, r: nat)
    requires ValidShow(show, cols)
    ensures DecodeShow(EncodeShow(show, cols), sheet, r, show.id, cols) == Success(show.(date := None))
  {
    FieldsRoundTrip(show, cols, sheet, r);
    AvailabilityRoundTrip(show, cols, sheet, r);
  }

  lemma FieldsRoundTrip(show: Show, cols: seq<DateColumn>, sheet: string, r: nat)
    requires ValidShow(show, cols)
    ensures DecodeFields(EncodeShow(show, cols), sheet, r)
      == Success(ShowFields(show.venue, show.location, show.halfDays, show.revenue, show.required))
  {
    var row := EncodeShow(show, cols);
    assert CellAt(row, 0) == Text(show.venue, NoFill) && CellAt(row, 1) == Text(show.location.city, NoFill);
    assert CellAt(row, 2) == Number(show.location.lat) && CellAt(row, 3) == Number(show.location.long);
    assert CellAt(row, 4) == Number(EncodeDuration(show.halfDays)) && CellAt(row, 5) == Number(show.revenue as real);
    assert CellAt(row, 6) == Bool(show.required);
    DurationRoundTrip(Pos(sheet, r, 4), show.halfDays);
    assert (show.revenue as real).Floor == show.revenue;
  }

  lemma AvailabilityRoundTrip(show: Show, cols: seq<DateColumn>, sheet: string, r: nat)
    requires ValidShow(show, cols)
    ensures DecodeAvailability(EncodeShow(show, cols), sheet, r, cols, 0) == Success(show.available)
  {
    var row := EncodeShow(show, cols);
    var available := DecodeAvailability(row, sheet, r, cols, 0);
    assert forall k :: 0 <= k < |cols| ==> DateCell(row, k) == row[LeadingColumns + k];
    assert available.value == show.available by {
      forall d | d in show.available
        ensures d in available.value
      {
        var k :| 0 <= k < |cols| && cols[k].date == d;
        assert DateCell(row, k) == Blank(NoFill);
      }
    }
  }

  // ---------------------------------------------------------------------
  // The whole sheet.

  function BannerLabels(): seq<string> {
    Blanks(LeadingColumns) + ["Availability"]
  }

  /** The three header rows the reader asserts, all derived from the date columns. */
  function CheckShowHeaders(rows: seq<Row>, cols: seq<DateColumn>, formatMonth: Date -> string): (r: Result<(), Error>)
    ensures r.Success? <==>
      && (forall j :: 0 <= j < |BannerLabels()| ==>
            StringValue(CellAt(RowAt(rows, 0), j)) == Some(BannerLabels()[j]))
      && (forall j :: 0 <= j < LeadingColumns + |cols| ==>
            StringValue(CellAt(RowAt(rows, 1), j)) == Some((Blanks(LeadingColumns) + MonthLabels(cols, formatMonth))[j]))
      && (forall j :: 0 <= j < LeadingColumns + |cols| ==>
            StringValue(CellAt(RowAt(rows, 2), j)) == Some((FieldHeaders + DayLabels(cols))[j]))
  {
    var _ :- ExpectHeaders(RowAt(rows, 0), ShowsSheet, 0, 0, BannerLabels());
    var _ :- ExpectHeaders(RowAt(rows, 1), ShowsSheet, 1, 0, Blanks(LeadingColumns) + MonthLabels(cols, formatMonth));
    ExpectHeaders(RowAt(rows, 2), ShowsSheet, 2, 0, FieldHeaders + DayLabels(cols))
  }

  /** `shows` are one valid show per row of `idx[k..]`, numbered from `k`. */
  predicate DecodedFrom(idx: seq<nat>, k: nat, cols: seq<DateColumn>, shows: seq<Show>)
    requires k <= |idx|
  {
    && |shows| == |idx| - k
    && forall m :: 0 <= m < |shows| ==> shows[m].id == k + m && shows[m].date == None && ValidShow(shows[m], cols)
  }

  /** The outcome of decoding each visited row: show `j` from row `idx[j]`. */
  function RowResults(rows: seq<Row>, idx: seq<nat>, cols: seq<DateColumn>): (results: seq<Result<Show, Error>>)
    requires forall m :: 0 <= m < |idx| ==> idx[m] < |rows|
    ensures |results| == |idx|
    ensures forall j :: 0 <= j < |idx| && results[j].Success? ==>
      results[j].value.id == j && results[j].value.date == None && ValidShow(results[j].value, cols)
  {
    seq(|idx|, j requires 0 <= j < |idx| => DecodeShow(rows[idx[j]], ShowsSheet, idx[j], j, cols))
  }

  lemma RowResult(rows: seq<Row>, idx: seq<nat>, cols: seq<DateColumn>, j: nat)
    requires forall m :: 0 <= m < |idx| ==> idx[m] < |rows|
    requires j < |idx|
    ensures RowResults(rows, idx, cols)[j] == DecodeShow(rows[idx[j]], ShowsSheet, idx[j], j, cols)
  {
  }

  /** The row loop over outcomes `k` onwards: the first failure met, or every show in order. */
  function CollectShows(results: seq<Result<Show, Error>>, k: nat): (res: Result<seq<Show>, Error>)
    requires k <= |results|
    ensures res.Success? <==> forall j :: k <= j < |results| ==> results[j].Success?
    ensures res.Success? ==> |res.value| == |results| - k
    ensures res.Success? ==> forall m :: 0 <= m < |res.value| ==> results[k + m] == Success(res.value[m])
    ensures res.Failure? ==>
      exists j :: k <= j < |results| && results[j] == Failure(res.error) && (forall i :: k <= i < j ==> results[i].Success?)
    decreases |results| - k
  {
    if k == |results| then Success([])
    else
      match results[k]
      case Failure(e) => Failure(e)
      case Success(show) =>
        match CollectShows(results, k + 1)
        case Failure(e) => Failure(e)
        case Success(rest) =>
          assert forall m :: 1 <= m < 1 + |rest| ==> ([show] + rest)[m] == rest[m - 1];
          Success([show] + rest)
  }

  /** Decodes the data rows `idx[k..]` in order, numbering the shows from `k`; the
      first row that does not decode ends the read with its error. */
  function DecodeShows(rows: seq<Row>, idx: seq<nat>, k: nat, cols: seq<DateColumn>): (res: Result<seq<Show>, Error>)
    requires k <= |idx|
    requires forall m :: 0 <= m < |idx| ==> idx[m] < |rows|
    ensures res.Success? ==> DecodedFrom(idx, k, cols, res.value)
  {
    CollectShows(RowResults(rows, idx, cols), k)
  }

  /** Show `m` of a collected run is the outcome at `k + m`. */
  lemma CollectedAt(results: seq<Result<Show, Error>>, k: nat, shows: seq<Show>, m: nat)
    requires k <= |results| && CollectShows(results, k) == Success(shows) && m < |shows|
    ensures k + m < |results| && results[k + m] == Success(shows[m])
  {
  }

  /** Show `m` of a decoding from `k` is the decoding of row `idx[k + m]`, numbered `k + m`. */
  lemma DecodeShowsRows(rows: seq<Row>, idx: seq<nat>, k: nat, cols: seq<DateColumn>, shows: seq<Show>, m: nat)
    requires k <= |idx|
    requires forall j :: 0 <= j < |idx| ==> idx[j] < |rows|
    requires DecodeShows(rows, idx, k, cols) == Success(shows) && m < |shows|
    ensures k + m < |idx|
    ensures DecodeShow(rows[idx[k + m]], ShowsSheet, idx[k + m], k + m, cols) == Success(shows[m])
  {
    var results := RowResults(rows, idx, cols);
    assert CollectShows(results, k) == Success(shows);
    CollectedAt(results, k, shows, m);
    RowResult(rows, idx, cols, k + m);
  }

  /** Row `idx[j]` decodes as show number `j`. */
  predicate RowDecodes(rows: seq<Row>, idx: seq<nat>, j: nat, cols: seq<DateColumn>)
    requires j < |idx| && idx[j] < |rows|
  {
    DecodeShow(rows[idx[j]], ShowsSheet, idx[j], j, cols).Success?
  }

  /** The show loop succeeds exactly when every visited row from `k` on decodes; otherwise
      its error is that of the first row that does not. */
  lemma DecodeShowsSucceeds(rows: seq<Row>, idx: seq<nat>, k: nat, cols: seq<DateColumn>)
    requires k <= |idx|
    requires forall j :: 0 <= j < |idx| ==> idx[j] < |rows|
    ensures DecodeShows(rows, idx, k, cols).Success? <==> forall j :: k <= j < |idx| ==> RowDecodes(rows, idx, j, cols)
    ensures DecodeShows(rows, idx, k, cols).Failure? ==>
      exists j :: && k <= j < |idx|
                  && DecodeShow(rows[idx[j]], ShowsSheet, idx[j], j, cols) == Failure(DecodeShows(rows, idx, k, cols).error)
                  && (forall i :: k <= i < j ==> RowDecodes(rows, idx, i, cols))
  {
    var results := RowResults(rows, idx, cols);
    var res := DecodeShows(rows, idx, k, cols);
    assert res == CollectShows(results, k);
    if res.Success? {
      forall j | k <= j < |idx|
        ensures RowDecodes(rows, idx, j, cols)
      {
        RowResult(rows, idx, cols, j);
      }
    } else {
      var j :| k <= j < |results| && results[j] == Failure(res.error) && forall i :: k <= i < j ==> results[i].Success?;
      forall i | k <= i < j
        ensures RowDecodes(rows, idx, i, cols)
      {
        RowResult(rows, idx, cols, i);
      }
      RowResult(rows, idx, cols, j);
      assert !RowDecodes(rows, idx, j, cols);
    }
  }

  /** `readShowList`: headers, then one show per non-empty row below them, with ids 0, 1, 2, ... */
  function ReadShowSheet(sheet: Sheet, bus: Bus, formatMonth: Date -> string): (res: Result<seq<Show>, Error>)
    ensures res.Success? ==> |res.value| == |NonEmptyRowsFrom(sheet.rows, 3)|
    ensures res.Success? ==> forall m :: 0 <= m < |res.value| ==>
      res.value[m].id == m && res.value[m].date == None && ValidShow(res.value[m], DateColumns(bus.startDate, bus.endDate))
  {
    var cols := DateColumns(bus.startDate, bus.endDate);
    var _ :- CheckShowHeaders(sheet.rows, cols, formatMonth);
    DecodeShows(sheet.rows, NonEmptyRowsFrom(sheet.rows, 3), 0, cols)
  }

  /** Show `m` of a read sheet is the decoding of the `m`-th non-empty row below the headers. */
  lemma ReadShowSheetRows(sheet: Sheet, bus: Bus, formatMonth: Date -> string, shows: seq<Show>, m: nat)
    requires ReadShowSheet(sheet, bus, formatMonth) == Success(shows) && m < |shows|
    ensures var idx := NonEmptyRowsFrom(sheet.rows, 3);
      && m < |idx|
      && DecodeShow(sheet.rows[idx[m]], ShowsSheet, idx[m], m, DateColumns(bus.startDate, bus.endDate)) == Success(shows[m])
  {
    DecodeShowsRows(sheet.rows, NonEmptyRowsFrom(sheet.rows, 3), 0, DateColumns(bus.startDate, bus.endDate), shows, m);
  }

  /** A Shows sheet is read exactly when its headers pass and every non-empty row below them decodes. */
  lemma ReadShowSheetSucceeds(sheet: Sheet, bus: Bus, formatMonth: Date -> string)
    ensures var cols := DateColumns(bus.startDate, bus.endDate);
      var idx := NonEmptyRowsFrom(sheet.rows, 3);
      ReadShowSheet(sheet, bus, formatMonth).Success? <==>
        && CheckShowHeaders(sheet.rows, cols, formatMonth).Success?
        && forall j :: 0 <= j < |idx| ==> RowDecodes(sheet.rows, idx, j, cols)
  {
    DecodeShowsSucceeds(sheet.rows, NonEmptyRowsFrom(sheet.rows, 3), 0, DateColumns(bus.startDate, bus.endDate));
  }

  function ReadShowList(wb: Workbook, bus: Bus, formatMonth: Date -> string): (res: Result<seq<Show>, Error>)
    ensures !HasSheet(wb, ShowsSheet) ==> res == Failure(MissingSheet(ShowsSheet))
    ensures res.Success? ==> forall m :: 0 <= m < |res.value| ==>
      res.value[m].id == m && res.value[m].date == None && ValidShow(res.value[m], DateColumns(bus.startDate, bus.endDate))
  {
    var sheet :- FindSheet(wb, ShowsSheet);
    ReadShowSheet(sheet, bus, formatMonth)
  }

  /** The three header rows the writer emits. */
  function ShowHeaderRows(cols: seq<DateColumn>, formatMonth: Date -> string): (rows: seq<Row>)
    ensures |rows| == 3
  {
    [ HeaderCells(BannerLabels()),
      HeaderCells(Blanks(LeadingColumns)) + MonthCells(cols, formatMonth),
      HeaderCells(FieldHeaders + DayLabels(cols)) ]
  }

  /** The written header rows pass the reader's header assertions, whatever rows follow them. */
  lemma WrittenHeadersPass(cols: seq<DateColumn>, formatMonth: Date -> string, rest: seq<Row>)
    ensures CheckShowHeaders(ShowHeaderRows(cols, formatMonth) + rest, cols, formatMonth).Success?
  {
    var rows := ShowHeaderRows(cols, formatMonth) + rest;
    var month := HeaderCells(Blanks(LeadingColumns)) + MonthCells(cols, formatMonth);
    assert RowAt(rows, 0) == HeaderCells(BannerLabels());
    assert RowAt(rows, 1) == month;
    assert RowAt(rows, 2) == HeaderCells(FieldHeaders + DayLabels(cols));
    forall j | 0 <= j < LeadingColumns + |cols|
      ensures StringValue(CellAt(month, j)) == Some((Blanks(LeadingColumns) + MonthLabels(cols, formatMonth))[j])
    {
      if j >= LeadingColumns {
        assert month[j] == MonthCells(cols, formatMonth)[j - LeadingColumns];
      }
    }
  }

  /** `writeShowList`: the header rows with their merged regions, then the shows in list order. */
  function WriteShowSheet(shows: seq<Show>, bus: Bus, formatMonth: Date -> string): (sheet: Sheet)
    ensures sheet.name == ShowsSheet
    ensures |sheet.rows| == 3 + |shows|
    ensures forall i :: 0 <= i < |shows| ==>
      sheet.rows[3 + i] == EncodeShow(shows[i], DateColumns(bus.startDate, bus.endDate))
  {
    var cols := DateColumns(bus.startDate, bus.endDate);
    var headerRows := ShowHeaderRows(cols, formatMonth);
    var showRows := seq(|shows|, i requires 0 <= i < |shows| => EncodeShow(shows[i], cols));
    var banner := Merge(0, LeadingColumns, LeadingColumns + DaysBetween(bus.startDate, bus.endDate) - 1);
    Sheet(ShowsSheet, headerRows + showRows, [banner] + MonthMerges(cols, 1, LeadingColumns, 0))
  }

  /** The banner spans exactly the date columns and the month regions tile them. */
  lemma WrittenMergesCoverDates(shows: seq<Show>, bus: Bus, formatMonth: Date -> string)
    requires Before(bus.startDate, bus.endDate)
    ensures var sheet := WriteShowSheet(shows, bus, formatMonth);
      var n := |DateColumns(bus.startDate, bus.endDate)|;
      && sheet.merges[0] == Merge(0, LeadingColumns, LeadingColumns + n - 1)
      && Tiles(sheet.merges[1..], LeadingColumns, LeadingColumns + n - 1)
  {
    var sheet := WriteShowSheet(shows, bus, formatMonth);
    OneColumnPerDate(bus.startDate, bus.endDate, bus.startDate);
    MonthMergesTile(bus.startDate, bus.endDate, 1, LeadingColumns);
    assert sheet.merges[1..] == MonthMerges(DateColumns(bus.startDate, bus.endDate), 1, LeadingColumns, 0);
  }

  /** The shows a valid tour can hold: each one writable, numbered by its position. */
  predicate ValidShowList(shows: seq<Show>, bus: Bus) {
    forall i :: 0 <= i < |shows| ==> shows[i].id == i && ValidShow(shows[i], DateColumns(bus.startDate, bus.endDate))
  }

  function WithoutDates(shows: seq<Show>): (r: seq<Show>)
    ensures |r| == |shows| && forall i :: 0 <= i < |shows| ==> r[i] == shows[i].(date := None)
  {
    seq(|shows|, i requires 0 <= i < |shows| => shows[i].(date := None))
  }

  lemma DecodeEncodedShows(shows: seq<Show>, cols: seq<DateColumn>, rows: seq<Row>, idx: seq<nat>, k: nat)
    requires forall i :: 0 <= i < |shows| ==> shows[i].id == i && ValidShow(shows[i], cols)
    requires |idx| == |shows| && k <= |shows|
    requires forall m :: 0 <= m < |idx| ==> idx[m] < |rows| && rows[idx[m]] == EncodeShow(shows[m], cols)
    ensures DecodeShows(rows, idx, k, cols) == Success(WithoutDates(shows)[k..])
  {
    var results := RowResults(rows, idx, cols);
    forall j | 0 <= j < |idx|
      ensures results[j] == Success(shows[j].(date := None))
    {
      DecodeEncodedShow(shows[j], cols, rows[idx[j]], idx[j], j);
      RowResult(rows, idx, cols, j);
    }
    var res := CollectShows(results, k);
    assert res.value == WithoutDates(shows)[k..];
  }


  /** A written row at any position decodes to its show, numbered as the show is. */
  lemma DecodeEncodedShow(show: Show, cols: seq<DateColumn>, row: Row, r: nat, id: nat)
    requires ValidShow(show, cols) && show.id == id && row == EncodeShow(show, cols)
    ensures DecodeShow(row, ShowsSheet, r, id, cols) == Success(show.(date := None))
  {
    ShowRowRoundTrip(show, cols, ShowsSheet, r);
  }

  /** Writing the show list and reading it back gives the same shows in the same order. */
  lemma ShowSheetRoundTrip(shows: seq<Show>, bus: Bus, formatMonth: Date -> string)
    requires ValidShowList(shows, bus)
    ensures ReadShowSheet(WriteShowSheet(shows, bus, formatMonth), bus, formatMonth) == Success(WithoutDates(shows))
  {
    var cols := DateColumns(bus.startDate, bus.endDate);
    var showRows := seq(|shows|, i requires 0 <= i < |shows| => EncodeShow(shows[i], cols));
    var rows := ShowHeaderRows(cols, formatMonth) + showRows;
    var sheet := WriteShowSheet(shows, bus, formatMonth);
    assert sheet.rows == rows;
    WrittenHeadersPass(cols, formatMonth, showRows);
    ShowRowsNotEmpty(shows, cols, ShowHeaderRows(cols, formatMonth));
    NoEmptyRowsSkipped(rows, 3);
    var idx := NonEmptyRowsFrom(rows, 3);
    DecodeEncodedShows(shows, cols, rows, idx, 0);
    assert ReadShowSheet(sheet, bus, formatMonth) == DecodeShows(rows, idx, 0, cols);
  }

  lemma ShowRowsNotEmpty(shows: seq<Show>, cols: seq<DateColumn>, header: seq<Row>)
    ensures var rows := header + seq(|shows|, i requires 0 <= i < |shows| => EncodeShow(shows[i], cols));
      forall i :: |header| <= i < |rows| ==> !IsEmptyRow(rows[i])
  {
    var rows := header + seq(|shows|, i requires 0 <= i < |shows| => EncodeShow(shows[i], cols));
    forall i | |header| <= i < |rows|
      ensures !IsEmptyRow(rows[i])
    {
      assert rows[i] == EncodeShow(shows[i - |header|], cols);
      assert rows[i][2].Number?;
    }
  }
}
