/** The read-only "Stops" sheet: one row per tour date listing the venues and
    cities of the shows assigned to that date, then one row for the shows
    with no date. */
module StopsView {
  import opened Results
  import opened Calendar
  import opened Text
  import opened Domain
  import opened Grid

  const StopsSheet: string := "Stops"
  const Separator: string := ", "

  /** Indices, in list order, of the shows from `from` on whose date is `date`
      (`None`: the unassigned shows). */
  function ShowIndicesOn(shows: seq<Show>, date: Option<Date>, from: nat): (idx: seq<nat>)
    requires from <= |shows|
    ensures forall k :: 0 <= k < |idx| ==> from <= idx[k] < |shows| && shows[idx[k]].date == date
    ensures forall k, l :: 0 <= k < l < |idx| ==> idx[k] < idx[l]
    ensures forall i :: from <= i < |shows| && shows[i].date == date ==> i in idx
    decreases |shows| - from
  {
    if from == |shows| then []
    else if shows[from].date == date then [from] + ShowIndicesOn(shows, date, from + 1)
    else ShowIndicesOn(shows, date, from + 1)
  }

  /** The show groups of the view: one per date from the bus's start to its end
      (exclusive), then the unassigned shows. */
  function StopGroups(shows: seq<Show>, bus: Bus): (groups: seq<seq<nat>>)
    ensures |groups| == |DateRange(bus.startDate, bus.endDate)| + 1
  {
    var dates := DateRange(bus.startDate, bus.endDate);
    seq(|dates|, k requires 0 <= k < |dates| => ShowIndicesOn(shows, Some(dates[k]), 0))
      + [ShowIndicesOn(shows, None, 0)]
  }

  /** The group a show with this date is listed in: its date's group, the last one
      when it has no date, none when its date lies outside the tour. */
  function DateSlot(bus: Bus, date: Option<Date>): Option<nat> {
    match date
    case None => Some(|DateRange(bus.startDate, bus.endDate)|)
    case Some(d) =>
      var k := DaysBetween(bus.startDate, d);
      if 0 <= k && Before(d, bus.endDate) then Some(k as nat) else None
  }

  /** The date group `g` lists exactly the shows whose date is the tour's `g`-th day. */
  lemma DatedMembership(shows: seq<Show>, bus: Bus, i: nat, g: nat)
    requires i < |shows| && g < |DateRange(bus.startDate, bus.endDate)|
    ensures i in StopGroups(shows, bus)[g] <==> DateSlot(bus, shows[i].date) == Some(g)
  {
    var start, end := bus.startDate, bus.endDate;
    var dates := DateRange(start, end);
    var idx := ShowIndicesOn(shows, Some(dates[g]), 0);
    assert StopGroups(shows, bus)[g] == idx;
    assert i in idx <==> shows[i].date == Some(dates[g]);
    DateRangeShape(start, end);
    PlusDaysIsLater(start, g);
    DateRangeMembers(start, end, dates[g]);
    if shows[i].date.Some? {
      var d := shows[i].date.value;
      if DateSlot(bus, shows[i].date) == Some(g) {
        DayNumberInjective(d, dates[g]);
      }
    }
  }

  /** The last group lists exactly the shows without a date. */
  lemma UnassignedMembership(shows: seq<Show>, bus: Bus, i: nat)
    requires i < |shows|
    ensures i in StopGroups(shows, bus)[|DateRange(bus.startDate, bus.endDate)|]
      <==> DateSlot(bus, shows[i].date) == Some(|DateRange(bus.startDate, bus.endDate)|)
  {
    var start, end := bus.startDate, bus.endDate;
    assert StopGroups(shows, bus)[|DateRange(start, end)|] == ShowIndicesOn(shows, None, 0);
    if shows[i].date.Some? {
      var d := shows[i].date.value;
      if 0 <= DaysBetween(start, d) && Before(d, end) {
        DateRangeShape(start, end);
        BeforeIsEarlier(d, end);
        BeforeIsEarlier(start, end);
      }
    }
  }

  /** Each show is listed in exactly the group for its date, the unassigned ones
      last, and a show dated outside the tour in none. */
  lemma StopsMembership(shows: seq<Show>, bus: Bus, i: nat, g: nat)
    requires i < |shows| && g < |StopGroups(shows, bus)|
    ensures i in StopGroups(shows, bus)[g] <==> DateSlot(bus, shows[i].date) == Some(g)
  {
    if g < |DateRange(bus.startDate, bus.endDate)| {
      DatedMembership(shows, bus, i, g);
    } else {
      UnassignedMembership(shows, bus, i);
    }
  }

  /** A show dated outside [start, end) is listed in no group. */
  lemma OutOfRangeUnlisted(shows: seq<Show>, bus: Bus, i: nat, g: nat)
    requires i < |shows| && g < |StopGroups(shows, bus)| && shows[i].date.Some?
    requires Before(shows[i].date.value, bus.startDate) || !Before(shows[i].date.value, bus.endDate)
    ensures i !in StopGroups(shows, bus)[g]
  {
    BeforeIsEarlier(shows[i].date.value, bus.startDate);
    StopsMembership(shows, bus, i, g);
  }

  /** Shows listed in a group keep their order in the show list. */
  lemma StopsKeepListOrder(shows: seq<Show>, bus: Bus, g: nat, k: nat, l: nat)
    requires g < |StopGroups(shows, bus)| && k < l < |StopGroups(shows, bus)[g]|
    ensures StopGroups(shows, bus)[g][k] < StopGroups(shows, bus)[g][l]
  {
    var dates := DateRange(bus.startDate, bus.endDate);
    if g < |dates| {
      assert StopGroups(shows, bus)[g] == ShowIndicesOn(shows, Some(dates[g]), 0);
    } else {
      assert StopGroups(shows, bus)[g] == ShowIndicesOn(shows, None, 0);
    }
  }

  function VenueNames(shows: seq<Show>, idx: seq<nat>): (names: seq<string>)
    requires forall k :: 0 <= k < |idx| ==> idx[k] < |shows|
    ensures |names| == |idx| && forall k :: 0 <= k < |idx| ==> names[k] == shows[idx[k]].venue
  {
    seq(|idx|, k requires 0 <= k < |idx| => shows[idx[k]].venue)
  }

  function CityNames(shows: seq<Show>, idx: seq<nat>): (names: seq<string>)
    requires forall k :: 0 <= k < |idx| ==> idx[k] < |shows|
    ensures |names| == |idx| && forall k :: 0 <= k < |idx| ==> names[k] == shows[idx[k]].location.city
  {
    seq(|idx|, k requires 0 <= k < |idx| => shows[idx[k]].location.city)
  }

  /** A row of the view: its heading, then the joined venue and city names of its shows. */
  function StopRow(heading: string, shows: seq<Show>, idx: seq<nat>): (row: Row)
    requires forall k :: 0 <= k < |idx| ==> idx[k] < |shows|
  {
    [Text(heading, NoFill), Text(Join(VenueNames(shows, idx), Separator), NoFill), Text(Join(CityNames(shows, idx), Separator), NoFill)]
  }

  /** `writeStopsView`: a header row, one row per tour date labelled with the formatted
      date, then the "Unassigned" row. */
  function WriteStopsSheet(shows: seq<Show>, bus: Bus, formatDay: Date -> string): (sheet: Sheet)
    ensures sheet.name == StopsSheet
    ensures |sheet.rows| == |StopGroups(shows, bus)| + 1
    ensures sheet.rows[0] == HeaderCells(["Date", "Venue names", "City names"])
    ensures forall g :: 0 <= g < |StopGroups(shows, bus)| ==>
      sheet.rows[g + 1] == StopRow(StopLabel(bus, formatDay, g), shows, StopGroups(shows, bus)[g])
  {
    var groups := StopGroups(shows, bus);
    var rows := seq(|groups|, g requires 0 <= g < |groups| => StopRow(StopLabel(bus, formatDay, g), shows, groups[g]));
    Sheet(StopsSheet, [HeaderCells(["Date", "Venue names", "City names"])] + rows, [])
  }

  /** The label of group `g`: its formatted date, or "Unassigned" for the last group. */
  function StopLabel(bus: Bus, formatDay: Date -> string, g: nat): string {
    var dates := DateRange(bus.startDate, bus.endDate);
    if g < |dates| then formatDay(dates[g]) else "Unassigned"
  }

  /** Row `g + 1` of the view: its heading, then the venues and the cities, each joined
      with ", ", of exactly the shows whose date falls in slot `g`, in show-list order. */
  lemma StopsRowContents(shows: seq<Show>, bus: Bus, formatDay: Date -> string, g: nat)
    requires g < |StopGroups(shows, bus)|
    ensures var idx := StopGroups(shows, bus)[g];
      var row := WriteStopsSheet(shows, bus, formatDay).rows[g + 1];
      && (forall k :: 0 <= k < |idx| ==> idx[k] < |shows|)
      && (forall i :: 0 <= i < |shows| ==> (i in idx <==> DateSlot(bus, shows[i].date) == Some(g)))
      && (forall k, l :: 0 <= k < l < |idx| ==> idx[k] < idx[l])
      && |row| == 3
      && row[0] == Text(StopLabel(bus, formatDay, g), NoFill)
      && row[1] == Text(Join(seq(|idx|, k requires 0 <= k < |idx| => shows[idx[k]].venue), Separator), NoFill)
      && row[2] == Text(Join(seq(|idx|, k requires 0 <= k < |idx| => shows[idx[k]].location.city), Separator), NoFill)
  {
    var idx := StopGroups(shows, bus)[g];
    var dates := DateRange(bus.startDate, bus.endDate);
    if g < |dates| {
      assert idx == ShowIndicesOn(shows, Some(dates[g]), 0);
    } else {
      assert idx == ShowIndicesOn(shows, None, 0);
    }
    forall i | 0 <= i < |shows|
      ensures i in idx <==> DateSlot(bus, shows[i].date) == Some(g)
    {
      StopsMembership(shows, bus, i, g);
    }
    forall k, l | 0 <= k < l < |idx|
      ensures idx[k] < idx[l]
    {
      StopsKeepListOrder(shows, bus, g, k, l);
    }
  }

  /** The view has a row per day of the tour plus the header and the unassigned row,
      and the date rows carry the tour's dates in order. */
  lemma StopsRowsFollowDates(shows: seq<Show>, bus: Bus, formatDay: Date -> string, k: nat)
    requires Before(bus.startDate, bus.endDate)
    ensures |WriteStopsSheet(shows, bus, formatDay).rows| == DaysBetween(bus.startDate, bus.endDate) + 2
    ensures k < DaysBetween(bus.startDate, bus.endDate) ==>
      WriteStopsSheet(shows, bus, formatDay).rows[k + 1][0] == Text(formatDay(PlusDays(bus.startDate, k)), NoFill)
  {
    DateRangeShape(bus.startDate, bus.endDate);
  }
}
