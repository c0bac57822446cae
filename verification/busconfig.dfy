/** The Configuration sheet, as far as the tour name: a "Tour name" header
    followed by the name, which must satisfy the tour-name pattern. */
module Configuration {
  import opened Results
  import opened Failures
  import opened Grid

  const ConfigurationSheet: string := "Configuration"
  const TourNameLabel: string := "Tour name"
  const ConstraintHeaders: seq<string> := ["Constraint", "Weight", "Description"]

  /** The tour name the first non-empty row carries after its header, as text. */
  function NameCell(sheet: Sheet): Cell {
    CellAt(NthRow(sheet.rows, NonEmptyRowsFrom(sheet.rows, 0), 0).1, 1)
  }

  /** `readConfiguration` up to the name check: the first non-empty row must open with
      the "Tour name" header, and the name after it must match the pattern. */
  function ReadTourName(sheet: Sheet, isValidName: string -> bool): (r: Result<string, Error>)
    ensures r.Success? <==>
      && StringValue(CellAt(NthRow(sheet.rows, NonEmptyRowsFrom(sheet.rows, 0), 0).1, 0)) == Some(TourNameLabel)
      && StringValue(NameCell(sheet)).Some?
      && isValidName(StringValue(NameCell(sheet)).value)
    ensures r.Success? ==> Some(r.value) == StringValue(NameCell(sheet))
    ensures
      var line := NthRow(sheet.rows, NonEmptyRowsFrom(sheet.rows, 0), 0);
      var name := StringValue(NameCell(sheet));
      StringValue(CellAt(line.1, 0)) == Some(TourNameLabel) && name.Some? && !isValidName(name.value) ==>
        r == Failure(InvalidTourName(Pos(ConfigurationSheet, line.0, 1), name.value))
  {
    var line := NthRow(sheet.rows, NonEmptyRowsFrom(sheet.rows, 0), 0);
    var header := ExpectHeader(line.1, Pos(ConfigurationSheet, line.0, 0), TourNameLabel);
    if header.Failure? then Failure(header.error)
    else
      var at := Pos(ConfigurationSheet, line.0, 1);
      match ReadString(line.1, at)
      case Failure(e) => Failure(e)
      case Success(name) =>
        if isValidName(name) then Success(name) else Failure(InvalidTourName(at, name))
  }

  function ReadConfiguration(wb: Workbook, isValidName: string -> bool): (r: Result<string, Error>)
    ensures !HasSheet(wb, ConfigurationSheet) ==> r == Failure(MissingSheet(ConfigurationSheet))
    ensures r.Success? ==> isValidName(r.value)
  {
    var sheet :- FindSheet(wb, ConfigurationSheet);
    ReadTourName(sheet, isValidName)
  }

  /** `writeConfiguration` without the constraint lines: the name row, an empty row,
      then the constraint header. */
  function WriteConfiguration(name: string): (sheet: Sheet)
    ensures sheet.name == ConfigurationSheet && |sheet.rows| == 3
    ensures StringValue(CellAt(sheet.rows[0], 0)) == Some(TourNameLabel)
    ensures StringValue(CellAt(sheet.rows[0], 1)) == Some(name)
    ensures IsEmptyRow(sheet.rows[1])
    ensures ExpectHeaders(sheet.rows[2], ConfigurationSheet, 2, 0, ConstraintHeaders).Success?
  {
    HeaderCellsPass(ConstraintHeaders, ConfigurationSheet, 2);
    Sheet(ConfigurationSheet, [[Text(TourNameLabel, NoFill), Text(name, NoFill)], [], HeaderCells(ConstraintHeaders)], [])
  }

  /** A written name reads back exactly when it matches the pattern; otherwise the
      reader rejects it at the name cell. */
  lemma ConfigurationRoundTrip(name: string, isValidName: string -> bool)
    ensures isValidName(name) ==> ReadTourName(WriteConfiguration(name), isValidName) == Success(name)
    ensures !isValidName(name) ==>
      ReadTourName(WriteConfiguration(name), isValidName) == Failure(InvalidTourName(Pos(ConfigurationSheet, 0, 1), name))
  {
    var rows := WriteConfiguration(name).rows;
    assert !IsEmptyRow(rows[0]) by {
      assert rows[0][0] == Text(TourNameLabel, NoFill);
    }
    assert 0 in NonEmptyRowsFrom(rows, 0);
    assert NonEmptyRowsFrom(rows, 0)[0] == 0;
  }
}

/** The Bus sheet: a header row, then the start and the end of the bus's
    journey, each a city name, latitude, longitude and formatted date. */
module BusCodec {
  import opened Results
  import opened Calendar
  import opened Domain
  import opened Failures
  import opened Grid

  const BusSheet: string := "Bus"
  const BusHeaders: seq<string> := ["", "City name", "Latitude", "Longitude", "Date"]
  const StartLabel: string := "Bus start"
  const EndLabel: string := "Bus end"

  /** A date cell's text through the day parser; an unparsable text is an error at that cell. */
  function ParseDate(text: string, at: Pos, parseDay: string -> Option<Date>): (r: Result<Date, Error>)
    ensures r.Success? <==> parseDay(text).Some?
    ensures r.Success? ==> r.value == parseDay(text).value
    ensures r.Failure? ==> r.error == UnparsableDate(at, text)
  {
    match parseDay(text)
    case Some(d) => Success(d)
    case None => Failure(UnparsableDate(at, text))
  }

  /** One journey end, row `r`: the label header, then city, latitude, longitude and date. */
  function ReadBusLine(row: Row, r: nat, heading: string, parseDay: string -> Option<Date>): (res: Result<(Location, Date), Error>)
    ensures res.Success? <==>
      && StringValue(CellAt(row, 0)) == Some(heading)
      && StringValue(CellAt(row, 1)).Some?
      && NumericValue(CellAt(row, 2)).Some?
      && NumericValue(CellAt(row, 3)).Some?
      && StringValue(CellAt(row, 4)).Some?
      && parseDay(StringValue(CellAt(row, 4)).value).Some?
    ensures res.Success? ==> res.value == (
      Location(StringValue(CellAt(row, 1)).value, NumericValue(CellAt(row, 2)).value, NumericValue(CellAt(row, 3)).value),
      parseDay(StringValue(CellAt(row, 4)).value).value)
  {
    var _ :- ExpectHeader(row, Pos(BusSheet, r, 0), heading);
    var city :- ReadString(row, Pos(BusSheet, r, 1));
    var lat :- ReadNumber(row, Pos(BusSheet, r, 2));
    var long :- ReadNumber(row, Pos(BusSheet, r, 3));
    var text :- ReadString(row, Pos(BusSheet, r, 4));
    var date :- ParseDate(text, Pos(BusSheet, r, 4), parseDay);
    Success((Location(city, lat, long), date))
  }

  /** `readBus`: the header row, then the start line, then the end line. */
  function ReadBusSheet(sheet: Sheet, parseDay: string -> Option<Date>): (res: Result<Bus, Error>)
    ensures res.Success? ==>
      var idx := NonEmptyRowsFrom(sheet.rows, 0);
      var header, startLine, endLine := NthRow(sheet.rows, idx, 0), NthRow(sheet.rows, idx, 1), NthRow(sheet.rows, idx, 2);
      && ExpectHeaders(header.1, BusSheet, header.0, 0, BusHeaders).Success?
      && ReadBusLine(startLine.1, startLine.0, StartLabel, parseDay) == Success((res.value.start, res.value.startDate))
      && ReadBusLine(endLine.1, endLine.0, EndLabel, parseDay) == Success((res.value.end, res.value.endDate))
  {
    var idx := NonEmptyRowsFrom(sheet.rows, 0);
    var header := NthRow(sheet.rows, idx, 0);
    var _ :- ExpectHeaders(header.1, BusSheet, header.0, 0, BusHeaders);
    var startLine := NthRow(sheet.rows, idx, 1);
    var start :- ReadBusLine(startLine.1, startLine.0, StartLabel, parseDay);
    var endLine := NthRow(sheet.rows, idx, 2);
    var end :- ReadBusLine(endLine.1, endLine.0, EndLabel, parseDay);
    Success(Bus(start.0, start.1, end.0, end.1))
  }

  function ReadBus(wb: Workbook, parseDay: string -> Option<Date>): (res: Result<Bus, Error>)
    ensures !HasSheet(wb, BusSheet) ==> res == Failure(MissingSheet(BusSheet))
  {
    var sheet :- FindSheet(wb, BusSheet);
    ReadBusSheet(sheet, parseDay)
  }

  function BusLine(heading: string, location: Location, date: Date, formatDay: Date -> string): (row: Row)
    ensures |row| == 5
  {
    [Text(heading, NoFill), Text(location.city, NoFill), Number(location.lat), Number(location.long), Text(formatDay(date), NoFill)]
  }

  /** `writeBus`: the header row, the start line and the end line. */
  function WriteBusSheet(bus: Bus, formatDay: Date -> string): (sheet: Sheet)
    ensures sheet.name == BusSheet && |sheet.rows| == 3
  {
    Sheet(BusSheet, [
      HeaderCells(BusHeaders),
      BusLine(StartLabel, bus.start, bus.startDate, formatDay),
      BusLine(EndLabel, bus.end, bus.endDate, formatDay)], [])
  }

  /** A written journey line reads back as the location and date it was written from. */
  lemma BusLineRoundTrip(heading: string, location: Location, date: Date, env: Collaborators, r: nat)
    requires DayFormatRoundTrips(env)
    ensures ReadBusLine(BusLine(heading, location, date, env.formatDay), r, heading, env.parseDay) == Success((location, date))
  {
    assert env.parseDay(env.formatDay(date)) == Some(date);
  }

  /** The sheet reader succeeds with the bus its three lines describe. */
  lemma ReadBusFromLines(sheet: Sheet, parseDay: string -> Option<Date>, start: (Location, Date), end: (Location, Date))
    requires var idx := NonEmptyRowsFrom(sheet.rows, 0);
      var header, startLine, endLine := NthRow(sheet.rows, idx, 0), NthRow(sheet.rows, idx, 1), NthRow(sheet.rows, idx, 2);
      && ExpectHeaders(header.1, BusSheet, header.0, 0, BusHeaders).Success?
      && ReadBusLine(startLine.1, startLine.0, StartLabel, parseDay) == Success(start)
      && ReadBusLine(endLine.1, endLine.0, EndLabel, parseDay) == Success(end)
    ensures ReadBusSheet(sheet, parseDay) == Success(Bus(start.0, start.1, end.0, end.1))
  {
  }

  /** Writing the bus and reading it back gives the same bus, provided parsing a
      formatted day gives the day back. */
  lemma BusRoundTrip(bus: Bus, env: Collaborators)
    requires DayFormatRoundTrips(env)
    ensures ReadBusSheet(WriteBusSheet(bus, env.formatDay), env.parseDay) == Success(bus)
  {
    var sheet := WriteBusSheet(bus, env.formatDay);
    var rows := sheet.rows;
    assert !IsEmptyRow(rows[0]) by {
      assert rows[0][1] == Text("City name", NoFill);
    }
    assert !IsEmptyRow(rows[1]) by {
      assert rows[1][0] == Text(StartLabel, NoFill);
    }
    assert !IsEmptyRow(rows[2]) by {
      assert rows[2][0] == Text(EndLabel, NoFill);
    }
    NoEmptyRowsSkipped(rows, 0);
    var idx := NonEmptyRowsFrom(rows, 0);
    assert NthRow(rows, idx, 0) == (0, HeaderCells(BusHeaders));
    assert NthRow(rows, idx, 1) == (1, BusLine(StartLabel, bus.start, bus.startDate, env.formatDay));
    assert NthRow(rows, idx, 2) == (2, BusLine(EndLabel, bus.end, bus.endDate, env.formatDay));
    BusLineRoundTrip(StartLabel, bus.start, bus.startDate, env, 1);
    BusLineRoundTrip(EndLabel, bus.end, bus.endDate, env, 2);
    HeaderCellsPass(BusHeaders, BusSheet, 0);
    ReadBusFromLines(sheet, env.parseDay, (bus.start, bus.startDate), (bus.end, bus.endDate));
  }
}
