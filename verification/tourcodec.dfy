/** The whole workbook: reading a tour sheet by sheet, and writing one,
    with the driving-time table keyed by every pair of tour locations. */
module TourCodec {
  import opened Results
  import opened Calendar
  import opened JavaNumbers
  import opened Domain
  import opened Failures
  import opened Grid
  import opened Configuration
  import opened BusCodec
  import opened ShowCodec
  import opened CoordinateGrouping
  import opened DrivingTime
  import opened StopsView
  import opened Text

  /** The location groups of a tour's driving-time table. */
  function TourGroups(bus: Bus, shows: seq<Show>): (groups: seq<Group>)
    ensures WellGrouped(groups)
  {
    LocationGroupsWellGrouped(TourLocations(bus, shows));
    LocationGroups(TourLocations(bus, shows))
  }

  /** `read()`: the configuration, the bus, the shows, then the driving times between
      every pair of the bus's and the shows' locations. */
  function ReadTour(wb: Workbook, env: Collaborators): (res: Result<Tour, Error>)
    ensures res.Success? ==> env.isValidName(res.value.name)
    ensures res.Success? ==> forall i :: 0 <= i < |res.value.shows| ==>
      res.value.shows[i].id == i && res.value.shows[i].date == None
    ensures res.Success? ==> res.value.drivingTimes.Keys == GroupedPairs(TourGroups(res.value.bus, res.value.shows))
  {
    var name :- ReadConfiguration(wb, env.isValidName);
    var bus :- ReadBus(wb, env.parseDay);
    var shows :- ReadShowList(wb, bus, env.formatMonth);
    var times :- ResolveDrivingTimes(wb, TourLocations(bus, shows), env);
    Success(Tour(name, bus, shows, times))
  }

  /** `write()`: the five sheets in order; it fails when the driving-time table gives
      two locations at the same coordinates different times. */
  function WriteTour(tour: Tour, env: Collaborators): (res: Result<Workbook, Error>)
    ensures res.Success? ==> |res.value| == 5
    ensures res.Success? ==> res.value[3].name == DrivingTimeSheet
  {
    match WriteDrivingTimeSheet(tour.drivingTimes, TourGroups(tour.bus, tour.shows), env.coordinateText)
    case Failure(e) => Failure(e)
    case Success(drivingTime) => Success(TourSheets(tour, env, drivingTime))
  }

  /** The five sheets `write()` emits, given the driving-time sheet. */
  function TourSheets(tour: Tour, env: Collaborators, drivingTime: Sheet): (wb: Workbook)
    ensures |wb| == 5 && wb[3] == drivingTime
  {
    [ WriteConfiguration(tour.name),
      WriteBusSheet(tour.bus, env.formatDay),
      WriteShowSheet(tour.shows, tour.bus, env.formatMonth),
      drivingTime,
      WriteStopsSheet(tour.shows, tour.bus, env.formatDay) ]
  }

  /** Writing succeeds exactly when locations at the same coordinates have the same
      driving times. */
  lemma WriteTourIff(tour: Tour, env: Collaborators)
    ensures WriteTour(tour, env).Success? <==> Consistent(TourGroups(tour.bus, tour.shows), tour.drivingTimes)
  {
    WriteGuardIff(tour.drivingTimes, TourGroups(tour.bus, tour.shows), env.coordinateText);
  }

  /** In a workbook whose sheet names differ even ignoring case, looking a name up finds its sheet. */
  lemma {:induction false} FindDistinctSheet(wb: Workbook, k: nat)
    requires k < |wb|
    requires forall i, j :: 0 <= i < j < |wb| ==> !SameIgnoringCase(wb[i].name, wb[j].name)
    ensures FindSheet(wb, wb[k].name) == Success(wb[k])
  {
    SameIgnoringCaseEquivalence(wb[k].name, wb[k].name, wb[k].name);
    if k > 0 {
      assert !SameIgnoringCase(wb[0].name, wb[k].name);
      assert wb[1..][k - 1] == wb[k];
      FindDistinctSheet(wb[1..], k - 1);
    }
  }

  /** Clearing the show dates keeps the tour's locations. */
  lemma LocationsWithoutDates(bus: Bus, shows: seq<Show>)
    ensures TourLocations(bus, WithoutDates(shows)) == TourLocations(bus, shows)
  {
    var a, b := TourLocations(bus, WithoutDates(shows)), TourLocations(bus, shows);
    assert forall i :: 0 <= i < |a| ==> a[i] == b[i];
  }

  /** What the writer and reader together need of a tour: a valid name, shows numbered
      in order that fit the bus's dates, and a complete driving-time table that is the
      same for locations at the same coordinates and fits in a Java `long`. */
  ghost predicate WritableTour(tour: Tour, env: Collaborators) {
    && env.isValidName(tour.name)
    && ValidShowList(tour.shows, tour.bus)
    && Consistent(TourGroups(tour.bus, tour.shows), tour.drivingTimes)
    && tour.drivingTimes.Keys == GroupedPairs(TourGroups(tour.bus, tour.shows))
    && (forall p :: p in tour.drivingTimes ==> Int64Min <= tour.drivingTimes[p] <= Int64Max)
  }

  /** A well-formed tour written and read back is the same tour, without the solver's
      date assignment. */
  lemma TourRoundTrip(tour: Tour, env: Collaborators)
    requires DayFormatRoundTrips(env) && WritableTour(tour, env)
    ensures WriteTour(tour, env).Success?
    ensures ReadTour(WriteTour(tour, env).value, env) == Success(tour.(shows := WithoutDates(tour.shows)))
  {
    var groups := TourGroups(tour.bus, tour.shows);
    DrivingTimeSheetRoundTrip(tour.drivingTimes, groups, env.coordinateText);
    var drivingTime := WriteDrivingTimeSheet(tour.drivingTimes, groups, env.coordinateText).value;
    var wb := TourSheets(tour, env, drivingTime);
    assert WriteTour(tour, env) == Success(wb);
    SheetsFound(tour, env, drivingTime);
    NameReadBack(wb, tour.name, env);
    BusReadBack(wb, tour.bus, env);
    ShowsReadBack(wb, tour.shows, tour.bus, env);
    TimesReadBack(wb, tour, env, drivingTime);
    ReadTourFromParts(wb, env, tour.name, tour.bus, WithoutDates(tour.shows), tour.drivingTimes);
  }

  lemma NameReadBack(wb: Workbook, name: string, env: Collaborators)
    requires env.isValidName(name) && FindSheet(wb, ConfigurationSheet) == Success(WriteConfiguration(name))
    ensures ReadConfiguration(wb, env.isValidName) == Success(name)
  {
    ConfigurationRoundTrip(name, env.isValidName);
  }

  lemma BusReadBack(wb: Workbook, bus: Bus, env: Collaborators)
    requires DayFormatRoundTrips(env) && FindSheet(wb, BusSheet) == Success(WriteBusSheet(bus, env.formatDay))
    ensures ReadBus(wb, env.parseDay) == Success(bus)
  {
    BusRoundTrip(bus, env);
  }

  lemma ShowsReadBack(wb: Workbook, shows: seq<Show>, bus: Bus, env: Collaborators)
    requires ValidShowList(shows, bus)
    requires FindSheet(wb, ShowsSheet) == Success(WriteShowSheet(shows, bus, env.formatMonth))
    ensures ReadShowList(wb, bus, env.formatMonth) == Success(WithoutDates(shows))
  {
    ShowSheetRoundTrip(shows, bus, env.formatMonth);
  }

  lemma TimesReadBack(wb: Workbook, tour: Tour, env: Collaborators, drivingTime: Sheet)
    requires FindSheet(wb, DrivingTimeSheet) == Success(drivingTime)
    requires ReadDrivingTimeSheet(drivingTime, TourGroups(tour.bus, tour.shows), env.coordinateText) == Success(tour.drivingTimes)
    ensures ResolveDrivingTimes(wb, TourLocations(tour.bus, WithoutDates(tour.shows)), env) == Success(tour.drivingTimes)
  {
    LocationsWithoutDates(tour.bus, tour.shows);
  }

  /** Each sheet the reader looks up is the one the writer put under that name. */
  lemma SheetsFound(tour: Tour, env: Collaborators, drivingTime: Sheet)
    requires drivingTime.name == DrivingTimeSheet
    ensures var wb := TourSheets(tour, env, drivingTime);
      && FindSheet(wb, ConfigurationSheet) == Success(wb[0])
      && FindSheet(wb, BusSheet) == Success(wb[1])
      && FindSheet(wb, ShowsSheet) == Success(wb[2])
      && FindSheet(wb, DrivingTimeSheet) == Success(drivingTime)
  {
    var wb := TourSheets(tour, env, drivingTime);
    assert wb[0].name == ConfigurationSheet && wb[1].name == BusSheet && wb[2].name == ShowsSheet;
    assert wb[4].name == StopsSheet;
    WriterNamesDistinct(wb);
  }

  /** The five sheet names the writer uses differ even ignoring case, so each is found by its name. */
  lemma WriterNamesDistinct(wb: Workbook)
    requires |wb| == 5
    requires wb[0].name == ConfigurationSheet && wb[1].name == BusSheet && wb[2].name == ShowsSheet
    requires wb[3].name == DrivingTimeSheet && wb[4].name == StopsSheet
    ensures forall k :: 0 <= k < 4 ==> FindSheet(wb, wb[k].name) == Success(wb[k])
  {
    // "Shows" and "Stops" are the only names of equal length; they differ in their second letter.
    assert FoldCase(ShowsSheet[1]) != FoldCase(StopsSheet[1]);
    assert forall i, j :: 0 <= i < j < |wb| ==> !SameIgnoringCase(wb[i].name, wb[j].name);
    forall k | 0 <= k < 4
      ensures FindSheet(wb, wb[k].name) == Success(wb[k])
    {
      FindDistinctSheet(wb, k);
    }
  }

  /** The reader succeeds with the tour its four parts describe. */
  lemma ReadTourFromParts(wb: Workbook, env: Collaborators, name: string, bus: Bus, shows: seq<Show>, times: DrivingTimes)
    requires ReadConfiguration(wb, env.isValidName) == Success(name)
    requires ReadBus(wb, env.parseDay) == Success(bus)
    requires ReadShowList(wb, bus, env.formatMonth) == Success(shows)
    requires ResolveDrivingTimes(wb, TourLocations(bus, shows), env) == Success(times)
    ensures ReadTour(wb, env) == Success(Tour(name, bus, shows, times))
  {
  }
}
