/** The tour domain the spreadsheet is decoded into: locations, the bus,
    shows, the driving-time table and the tour as a whole, plus the
    collaborators the codec calls but does not define. */
module Domain {
  import opened Results
  import opened Calendar

  /** The (latitude, longitude) pair the driving-time matrix is indexed by. */
  datatype LatLong = LatLong(lat: real, long: real)

  datatype Location = Location(city: string, lat: real, long: real) {
    function Coordinates(): LatLong {
      LatLong(lat, long)
    }
  }

  /** The bus: where and when the tour starts and ends; its dates bound [startDate, endDate). */
  datatype Bus = Bus(start: Location, startDate: Date, end: Location, endDate: Date)

  /** One candidate show. `halfDays` and `revenue` are Java `int`s; `date` is the
      solver's assignment, never filled in by the reader. */
  datatype Show = Show(
    id: nat,
    venue: string,
    location: Location,
    halfDays: int,
    revenue: int,
    required: bool,
    available: set<Date>,
    date: Option<Date>)

  /** Every location's driving seconds to every other location, keyed by (from, to). */
  type DrivingTimes = map<(Location, Location), int>

  datatype Tour = Tour(name: string, bus: Bus, shows: seq<Show>, drivingTimes: DrivingTimes)

  /** Functions the codec uses but whose definitions live elsewhere: the day
      and month formatters, `Double.toString`, the tour-name pattern and
      `RockLocation.getAirDistanceTo`. */
  datatype Collaborators = Collaborators(
    formatDay: Date -> string,
    parseDay: string -> Option<Date>,
    formatMonth: Date -> string,
    coordinateText: real -> string,
    isValidName: string -> bool,
    airDistance: (Location, Location) -> int)

  /** Parsing a formatted day gives the day back. */
  ghost predicate DayFormatRoundTrips(env: Collaborators) {
    forall d: Date :: env.parseDay(env.formatDay(d)) == Some(d)
  }

  /** The locations the driving-time matrix covers: bus start, bus end, then each show's. */
  function TourLocations(bus: Bus, shows: seq<Show>): (locations: seq<Location>)
    ensures |locations| == |shows| + 2
    ensures locations[0] == bus.start && locations[1] == bus.end
    ensures forall i :: 0 <= i < |shows| ==> locations[i + 2] == shows[i].location
  {
    [bus.start, bus.end] + seq(|shows|, i requires 0 <= i < |shows| => shows[i].location)
  }
}
