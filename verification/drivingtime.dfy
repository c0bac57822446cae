/** The driving-time resolver: the matrix over coordinate groups, read
    from the "Driving time" sheet and broadcast to every pair of member
    locations, or derived from air distances when the sheet is absent; and
    the writer's guard that every member pair agrees with its group pair. */
module DrivingTime {
  import opened Results
  import opened JavaNumbers
  import opened Domain
  import opened Failures
  import opened Grid
  import opened CoordinateGrouping

  const DrivingTimeSheet: string := "Driving time"
  const Banner: string := "Driving time in seconds. Delete this sheet to generate it from air distances."

  /** Groups as the grouper makes them: non-empty, members sharing their group's
      key, no key twice. */
  predicate WellGrouped(groups: seq<Group>) {
    && (forall i :: 0 <= i < |groups| ==> |groups[i].members| > 0)
    && (forall i, l :: 0 <= i < |groups| && l in groups[i].members ==> l.Coordinates() == groups[i].key)
    && (forall i, j :: 0 <= i < j < |groups| ==> groups[i].key != groups[j].key)
  }

  lemma LocationGroupsWellGrouped(locs: seq<Location>)
    ensures WellGrouped(LocationGroups(locs))
  {
    var groups := LocationGroups(locs);
    GroupsWellFormed(locs);
    forall i, j | 0 <= i < j < |groups|
      ensures groups[i].key != groups[j].key
    {
      assert LatLongBefore(groups[i].key, groups[j].key);
    }
  }

  function Representative(g: Group): Location
    requires |g.members| > 0
  {
    g.members[0]
  }

  predicate InGroup(groups: seq<Group>, i: int, l: Location) {
    0 <= i < |groups| && l in groups[i].members
  }

  function GroupedLocations(groups: seq<Group>): set<Location> {
    set i, l | 0 <= i < |groups| && l in groups[i].members :: l
  }

  /** Every (from, to) pair of grouped locations: the keys a resolved table has. */
  function GroupedPairs(groups: seq<Group>): set<(Location, Location)> {
    set a, b | a in GroupedLocations(groups) && b in GroupedLocations(groups) :: (a, b)
  }

  /** The index of the group holding `l`. */
  function GroupIndex(groups: seq<Group>, l: Location): (i: nat)
    requires l in GroupedLocations(groups)
    ensures InGroup(groups, i, l)
    decreases |groups|
  {
    if l in groups[0].members then 0
    else
      assert l in GroupedLocations(groups[1..]) by {
        var i :| 0 <= i < |groups| && l in groups[i].members;
        assert groups[1..][i - 1] == groups[i];
      }
      1 + GroupIndex(groups[1..], l)
  }

  /** In well-formed groups a location belongs to one group only. */
  lemma GroupIndexUnique(groups: seq<Group>, i: int, l: Location)
    requires WellGrouped(groups) && InGroup(groups, i, l)
    ensures l in GroupedLocations(groups) && GroupIndex(groups, l) == i
  {
    var k := GroupIndex(groups, l);
    assert groups[k].key == l.Coordinates() && groups[i].key == l.Coordinates();
  }

  predicate IsSquare(matrix: seq<seq<int>>, n: nat) {
    |matrix| == n && forall i :: 0 <= i < n ==> |matrix[i]| == n
  }

  /** The broadcast: the cell of (from group, to group) becomes the time of every
      (from member, to member) pair. */
  function Broadcast(groups: seq<Group>, matrix: seq<seq<int>>): (times: DrivingTimes)
    requires IsSquare(matrix, |groups|)
    ensures times.Keys == GroupedPairs(groups)
  {
    map p | p in GroupedPairs(groups) :: matrix[GroupIndex(groups, p.0)][GroupIndex(groups, p.1)]
  }

  lemma BroadcastValues(groups: seq<Group>, matrix: seq<seq<int>>, i: int, j: int, a: Location, b: Location)
    requires WellGrouped(groups) && IsSquare(matrix, |groups|)
    requires InGroup(groups, i, a) && InGroup(groups, j, b)
    ensures (a, b) in Broadcast(groups, matrix) && Broadcast(groups, matrix)[(a, b)] == matrix[i][j]
  {
    GroupIndexUnique(groups, i, a);
    GroupIndexUnique(groups, j, b);
  }

  /** Derived mode: each pair of grouped locations gets the air distance between them. */
  function DeriveTimes(groups: seq<Group>, airDistance: (Location, Location) -> int): (times: DrivingTimes)
    ensures times.Keys == GroupedPairs(groups)
    ensures forall p :: p in times ==> times[p] == airDistance(p.0, p.1)
  {
    map p | p in GroupedPairs(groups) :: airDistance(p.0, p.1)
  }

  // ---------------------------------------------------------------------
  // The consistency the writer guards.

  /** Every member pair of every group pair has a time, equal to the representatives' time. */
  ghost predicate Consistent(groups: seq<Group>, times: DrivingTimes) {
    forall i, j, a, b :: InGroup(groups, i, a) && InGroup(groups, j, b) ==>
      && (a, b) in times
      && (Representative(groups[i]), Representative(groups[j])) in times
      && times[(a, b)] == times[(Representative(groups[i]), Representative(groups[j]))]
  }

  /** A broadcast table is consistent, whatever the matrix. */
  lemma BroadcastIsConsistent(groups: seq<Group>, matrix: seq<seq<int>>)
    requires WellGrouped(groups) && IsSquare(matrix, |groups|)
    ensures Consistent(groups, Broadcast(groups, matrix))
  {
    forall i, j, a, b | InGroup(groups, i, a) && InGroup(groups, j, b)
      ensures var times := Broadcast(groups, matrix);
        && (a, b) in times
        && (Representative(groups[i]), Representative(groups[j])) in times
        && times[(a, b)] == times[(Representative(groups[i]), Representative(groups[j]))]
    {
      BroadcastValues(groups, matrix, i, j, a, b);
      BroadcastValues(groups, matrix, i, j, Representative(groups[i]), Representative(groups[j]));
    }
  }

  /** Air distance that depends on coordinates alone. */
  ghost predicate DependsOnCoordinatesOnly(airDistance: (Location, Location) -> int) {
    forall a: Location, a': Location, b: Location, b': Location ::
      a.Coordinates() == a'.Coordinates() && b.Coordinates() == b'.Coordinates()
      ==> airDistance(a, b) == airDistance(a', b')
  }

  /** A derived table is consistent when the air distance sees only coordinates. */
  lemma DerivedIsConsistent(groups: seq<Group>, airDistance: (Location, Location) -> int)
    requires WellGrouped(groups) && DependsOnCoordinatesOnly(airDistance)
    ensures Consistent(groups, DeriveTimes(groups, airDistance))
  {
    var times := DeriveTimes(groups, airDistance);
    forall i, j, a, b | InGroup(groups, i, a) && InGroup(groups, j, b)
      ensures && (a, b) in times
        && (Representative(groups[i]), Representative(groups[j])) in times
        && times[(a, b)] == times[(Representative(groups[i]), Representative(groups[j]))]
    {
      var ra, rb := Representative(groups[i]), Representative(groups[j]);
      assert a in GroupedLocations(groups) && b in GroupedLocations(groups);
      assert ra in groups[i].members && rb in groups[j].members;
      assert ra in GroupedLocations(groups) && rb in GroupedLocations(groups);
    }
  }

  /** The broadcast-consistency invariant stated on locations: any two pairs whose
      ends share coordinates have the same time. */
  ghost predicate CoordinateInvariant(locs: seq<Location>, times: DrivingTimes) {
    && (forall a, b :: a in locs && b in locs ==> (a, b) in times)
    && (forall a, a', b, b' ::
          a in locs && a' in locs && b in locs && b' in locs
          && a.Coordinates() == a'.Coordinates() && b.Coordinates() == b'.Coordinates()
          ==> times[(a, b)] == times[(a', b')])
  }

  /** The group of the grouper's output holding `l`, with its membership rule. */
  lemma GroupOf(locs: seq<Location>, l: Location) returns (i: nat)
    requires l in locs
    ensures InGroup(LocationGroups(locs), i, l)
    ensures forall m :: m in LocationGroups(locs)[i].members <==> m in locs && m.Coordinates() == l.Coordinates()
  {
    var groups := LocationGroups(locs);
    GroupsWellFormed(locs);
    ExactlyOneGroup(locs, l);
    i :| 0 <= i < |groups| && l in groups[i].members;
  }

  lemma ConsistentImpliesInvariant(locs: seq<Location>, times: DrivingTimes)
    requires Consistent(LocationGroups(locs), times)
    ensures CoordinateInvariant(locs, times)
  {
    var groups := LocationGroups(locs);
    forall a, b | a in locs && b in locs
      ensures (a, b) in times
    {
      var i := GroupOf(locs, a);
      var j := GroupOf(locs, b);
    }
    forall a, a', b, b' |
        a in locs && a' in locs && b in locs && b' in locs
        && a.Coordinates() == a'.Coordinates() && b.Coordinates() == b'.Coordinates()
      ensures times[(a, b)] == times[(a', b')]
    {
      var i := GroupOf(locs, a);
      var j := GroupOf(locs, b);
      assert InGroup(groups, i, a') && InGroup(groups, j, b');
    }
  }

  lemma InvariantImpliesConsistent(locs: seq<Location>, times: DrivingTimes)
    requires CoordinateInvariant(locs, times)
    ensures Consistent(LocationGroups(locs), times)
  {
    var groups := LocationGroups(locs);
    GroupsWellFormed(locs);
    forall i, j, a, b | InGroup(groups, i, a) && InGroup(groups, j, b)
      ensures && (a, b) in times
        && (Representative(groups[i]), Representative(groups[j])) in times
        && times[(a, b)] == times[(Representative(groups[i]), Representative(groups[j]))]
    {
      assert Representative(groups[i]) in groups[i].members;
      assert Representative(groups[j]) in groups[j].members;
    }
  }

  /** Checking member pairs against representative pairs over the grouper's groups
      is exactly the coordinate invariant. */
  lemma ConsistentIffCoordinateInvariant(locs: seq<Location>, times: DrivingTimes)
    ensures Consistent(LocationGroups(locs), times) <==> CoordinateInvariant(locs, times)
  {
    if Consistent(LocationGroups(locs), times) {
      ConsistentImpliesInvariant(locs, times);
    }
    if CoordinateInvariant(locs, times) {
      InvariantImpliesConsistent(locs, times);
    }
  }

  /** Every grouped location is one of the grouped input locations, and back. */
  lemma GroupedLocationsAreInputs(locs: seq<Location>)
    ensures GroupedLocations(LocationGroups(locs)) == set l | l in locs
  {
    var groups := LocationGroups(locs);
    GroupsWellFormed(locs);
    forall l | l in locs
      ensures l in GroupedLocations(groups)
    {
      var i := GroupOf(locs, l);
    }
  }

  /** With no Driving time sheet, the table holds every ordered pair of the tour's
      locations, and only those, each with its air distance. */
  lemma DeriveTimesForInputs(locs: seq<Location>, airDistance: (Location, Location) -> int, a: Location, b: Location)
    ensures (a, b) in DeriveTimes(LocationGroups(locs), airDistance) <==> a in locs && b in locs
    ensures (a, b) in DeriveTimes(LocationGroups(locs), airDistance) ==>
      DeriveTimes(LocationGroups(locs), airDistance)[(a, b)] == airDistance(a, b)
  {
    GroupedLocationsAreInputs(locs);
  }

  // ---------------------------------------------------------------------
  // The "Driving time" sheet.

  function LatitudeLabels(groups: seq<Group>, coordinateText: real -> string): (labels: seq<string>)
    ensures |labels| == |groups|
  {
    seq(|groups|, i requires 0 <= i < |groups| => coordinateText(groups[i].key.lat))
  }

  function LongitudeLabels(groups: seq<Group>, coordinateText: real -> string): (labels: seq<string>)
    ensures |labels| == |groups|
  {
    seq(|groups|, i requires 0 <= i < |groups| => coordinateText(groups[i].key.long))
  }

  /** The labels in front of matrix row `i`: its group's latitude and longitude. */
  function RowLabels(g: Group, coordinateText: real -> string): seq<string> {
    [coordinateText(g.key.lat), coordinateText(g.key.long)]
  }

  /** A cell the reader accepts as a driving time: numeric (a blank reads 0), an
      integer, and within `long` range. */
  predicate IsTimeCell(c: Cell) {
    NumericValue(c).Some? && IsIntegral(NumericValue(c).value)
    && Int64Min as real <= NumericValue(c).value <= Int64Max as real
  }

  function TimeCell(row: Row, j: nat): Cell {
    CellAt(row, 2 + j)
  }

  /** The driving times of one matrix row, to-groups `j` to `n - 1`. */
  function ReadTimeRow(row: Row, sheet: string, r: nat, n: nat, j: nat): (res: Result<seq<int>, Error>)
    requires j <= n
    ensures res.Success? <==> forall k :: j <= k < n ==> IsTimeCell(TimeCell(row, k))
    ensures res.Success? ==> |res.value| == n - j
    ensures res.Success? ==> forall k :: j <= k < n ==> NumericValue(TimeCell(row, k)) == Some(res.value[k - j] as real)
    decreases n - j
  {
    if j == n then Success([])
    else
      var at := Pos(sheet, r, 2 + j);
      assert TimeCell(row, j) == CellAt(row, at.col);
      var x :- ReadNumber(row, at);
      var time := LongCast(x);
      if time as real != x then Failure(DrivingTimeNotInteger(at, x))
      else
        var rest :- ReadTimeRow(row, sheet, r, n, j + 1);
        Success([time] + rest)
  }

  /** The matrix row of group `m`, the `3 + m`-th non-empty row, carries its group's
      coordinates and a whole `long` time per group. */
  predicate MatrixRowReads(rows: seq<Row>, idx: seq<nat>, groups: seq<Group>, coordinateText: real -> string, m: nat)
    requires m < |groups|
    requires forall k :: 0 <= k < |idx| ==> idx[k] < |rows|
  {
    var line := NthRow(rows, idx, 3 + m);
    && ExpectHeaders(line.1, DrivingTimeSheet, line.0, 0, RowLabels(groups[m], coordinateText)).Success?
    && ReadTimeRow(line.1, DrivingTimeSheet, line.0, |groups|, 0).Success?
  }

  /** Every group's matrix row, below the three header rows, reads. */
  predicate MatrixRowsRead(rows: seq<Row>, groups: seq<Group>, coordinateText: real -> string) {
    var idx := NonEmptyRowsFrom(rows, 0);
    forall m :: 0 <= m < |groups| ==> MatrixRowReads(rows, idx, groups, coordinateText, m)
  }

  /** Matrix rows `i` to the last group, each on the `3 + i`-th non-empty row. */
  function ReadTimeRows(rows: seq<Row>, idx: seq<nat>, groups: seq<Group>, coordinateText: real -> string, i: nat)
    : (res: Result<seq<seq<int>>, Error>)
    requires i <= |groups|
    requires forall m :: 0 <= m < |idx| ==> idx[m] < |rows|
    ensures res.Success? <==> forall m :: i <= m < |groups| ==> MatrixRowReads(rows, idx, groups, coordinateText, m)
    ensures res.Success? ==> |res.value| == |groups| - i
    ensures res.Success? ==> forall m :: 0 <= m < |res.value| ==>
      var line := NthRow(rows, idx, 3 + i + m);
      ReadTimeRow(line.1, DrivingTimeSheet, line.0, |groups|, 0) == Success(res.value[m])
    decreases |groups| - i
  {
    if i == |groups| then Success([])
    else
      var line := NthRow(rows, idx, 3 + i);
      match ExpectHeaders(line.1, DrivingTimeSheet, line.0, 0, RowLabels(groups[i], coordinateText))
      case Failure(e) =>
        assert !MatrixRowReads(rows, idx, groups, coordinateText, i);
        Failure(e)
      case Success(_) =>
        match ReadTimeRow(line.1, DrivingTimeSheet, line.0, |groups|, 0)
        case Failure(e) =>
          assert !MatrixRowReads(rows, idx, groups, coordinateText, i);
          Failure(e)
        case Success(times) =>
          var rest :- ReadTimeRows(rows, idx, groups, coordinateText, i + 1);
          Success([times] + rest)
  }

  /** The banner row, then the latitude and longitude header rows, as the first three non-empty rows. */
  predicate DrivingTimeHeadersPass(rows: seq<Row>, groups: seq<Group>, coordinateText: real -> string) {
    var idx := NonEmptyRowsFrom(rows, 0);
    var banner, latitudes, longitudes := NthRow(rows, idx, 0), NthRow(rows, idx, 1), NthRow(rows, idx, 2);
    && ExpectHeader(banner.1, Pos(DrivingTimeSheet, banner.0, 0), Banner).Success?
    && ExpectHeaders(latitudes.1, DrivingTimeSheet, latitudes.0, 0, ["Latitude", ""] + LatitudeLabels(groups, coordinateText)).Success?
    && ExpectHeaders(longitudes.1, DrivingTimeSheet, longitudes.0, 0, ["", "Longitude"] + LongitudeLabels(groups, coordinateText)).Success?
  }

  /** The reader's checks of the banner row and the latitude and longitude header rows. */
  function CheckDrivingTimeHeaders(rows: seq<Row>, groups: seq<Group>, coordinateText: real -> string): (r: Result<(), Error>)
    ensures r.Success? <==> DrivingTimeHeadersPass(rows, groups, coordinateText)
  {
    var idx := NonEmptyRowsFrom(rows, 0);
    var banner := NthRow(rows, idx, 0);
    var _ :- ExpectHeader(banner.1, Pos(DrivingTimeSheet, banner.0, 0), Banner);
    var latitudes := NthRow(rows, idx, 1);
    var _ :- ExpectHeaders(latitudes.1, DrivingTimeSheet, latitudes.0, 0,
                           ["Latitude", ""] + LatitudeLabels(groups, coordinateText));
    var longitudes := NthRow(rows, idx, 2);
    ExpectHeaders(longitudes.1, DrivingTimeSheet, longitudes.0, 0,
                  ["", "Longitude"] + LongitudeLabels(groups, coordinateText))
  }

  /** `readDrivingTime` with the sheet present: the banner, the latitude and longitude
      header rows, one matrix row per group, then the broadcast. */
  function ReadDrivingTimeSheet(sheet: Sheet, groups: seq<Group>, coordinateText: real -> string)
    : (res: Result<DrivingTimes, Error>)
    requires WellGrouped(groups)
    ensures res.Success? ==> res.value.Keys == GroupedPairs(groups)
    ensures res.Success? ==> exists matrix :: IsSquare(matrix, |groups|) && res.value == Broadcast(groups, matrix)
  {
    var idx := NonEmptyRowsFrom(sheet.rows, 0);
    match CheckDrivingTimeHeaders(sheet.rows, groups, coordinateText)
    case Failure(e) => Failure(e)
    case Success(_) =>
      match ReadTimeRows(sheet.rows, idx, groups, coordinateText, 0)
      case Failure(e) => Failure(e)
      case Success(matrix) =>
        assert IsSquare(matrix, |groups|);
        Success(Broadcast(groups, matrix))
  }

  /** The sheet reads exactly when its three header rows pass and every group's matrix
      row carries that group's coordinates and whole times. */
  lemma ReadDrivingTimeSheetSucceeds(sheet: Sheet, groups: seq<Group>, coordinateText: real -> string)
    requires WellGrouped(groups)
    ensures ReadDrivingTimeSheet(sheet, groups, coordinateText).Success? <==>
      DrivingTimeHeadersPass(sheet.rows, groups, coordinateText) && MatrixRowsRead(sheet.rows, groups, coordinateText)
  {
    var idx := NonEmptyRowsFrom(sheet.rows, 0);
    var headers := CheckDrivingTimeHeaders(sheet.rows, groups, coordinateText);
    var matrix := ReadTimeRows(sheet.rows, idx, groups, coordinateText, 0);
    assert ReadDrivingTimeSheet(sheet, groups, coordinateText).Success? <==> headers.Success? && matrix.Success?;
    assert headers.Success? <==> DrivingTimeHeadersPass(sheet.rows, groups, coordinateText);
    assert matrix.Success? <==> MatrixRowsRead(sheet.rows, groups, coordinateText);
  }

  /** A successful read is the broadcast of the matrix the rows below the headers spell. */
  lemma ReadDrivingTimeSheetMatrix(sheet: Sheet, groups: seq<Group>, coordinateText: real -> string, times: DrivingTimes)
    requires WellGrouped(groups)
    requires ReadDrivingTimeSheet(sheet, groups, coordinateText) == Success(times)
    ensures var matrix := ReadTimeRows(sheet.rows, NonEmptyRowsFrom(sheet.rows, 0), groups, coordinateText, 0);
      matrix.Success? && times == Broadcast(groups, matrix.value)
  {
  }

  /** `readDrivingTime`: the sheet when the workbook has one, else air distances. */
  function ResolveDrivingTimes(wb: Workbook, locs: seq<Location>, env: Collaborators): (res: Result<DrivingTimes, Error>)
    ensures res.Success? ==> res.value.Keys == GroupedPairs(LocationGroups(locs))
    ensures !HasSheet(wb, DrivingTimeSheet) ==> res == Success(DeriveTimes(LocationGroups(locs), env.airDistance))
  {
    var groups := LocationGroups(locs);
    LocationGroupsWellGrouped(locs);
    match FindSheet(wb, DrivingTimeSheet)
    case Failure(_) => Success(DeriveTimes(groups, env.airDistance))
    case Success(sheet) => ReadDrivingTimeSheet(sheet, groups, env.coordinateText)
  }

  // ---------------------------------------------------------------------
  // Writing, behind the consistency guard.

  /** Every (from, to) pair in the writer's loop order: each from member, then each to member. */
  function MemberPairs(froms: seq<Location>, tos: seq<Location>): (pairs: seq<(Location, Location)>)
    ensures forall a, b :: (a, b) in pairs <==> a in froms && b in tos
    decreases |froms|
  {
    if |froms| == 0 then []
    else
      var head := seq(|tos|, k requires 0 <= k < |tos| => (froms[0], tos[k]));
      assert forall a, b :: (a, b) in head <==> a == froms[0] && b in tos by {
        forall a, b | a == froms[0] && b in tos
          ensures (a, b) in head
        {
          var k :| 0 <= k < |tos| && tos[k] == b;
          assert head[k] == (a, b);
        }
      }
      assert forall a :: a in froms <==> a == froms[0] || a in froms[1..];
      head + MemberPairs(froms[1..], tos)
  }

  /** The guard's inner loops: the first pair without a time or with another time than
      the representatives' fails. */
  function CheckPairs(times: DrivingTimes, pairs: seq<(Location, Location)>, k: nat,
                      repFrom: Location, repTo: Location, time: int): (res: Result<(), Error>)
    requires k <= |pairs|
    ensures res.Success? <==> forall m :: k <= m < |pairs| ==> pairs[m] in times && times[pairs[m]] == time
    ensures res.Failure? ==> res.error.MissingDrivingTime? || res.error.InconsistentDrivingTime?
    decreases |pairs| - k
  {
    if k == |pairs| then Success(())
    else
      var (a, b) := pairs[k];
      if (a, b) !in times then Failure(MissingDrivingTime(a, b))
      else if times[(a, b)] != time then Failure(InconsistentDrivingTime(repFrom, repTo, time, a, b, times[(a, b)]))
      else CheckPairs(times, pairs, k + 1, repFrom, repTo, time)
  }

  /** Every member pair of the two groups has the representatives' time. */
  predicate AgreesWithRepresentatives(times: DrivingTimes, from: Group, to: Group)
    requires |from.members| > 0 && |to.members| > 0
  {
    && (Representative(from), Representative(to)) in times
    && forall a, b :: a in from.members && b in to.members ==>
         (a, b) in times && times[(a, b)] == times[(Representative(from), Representative(to))]
  }

  /** The guard for one group pair: the representatives' time must exist and every
      member pair must have it. */
  function CheckGroupPair(times: DrivingTimes, from: Group, to: Group): (res: Result<(), Error>)
    requires |from.members| > 0 && |to.members| > 0
    ensures res.Success? <==> AgreesWithRepresentatives(times, from, to)
    ensures res.Failure? ==> res.error.MissingDrivingTime? || res.error.InconsistentDrivingTime?
  {
    var repFrom, repTo := Representative(from), Representative(to);
    if (repFrom, repTo) !in times then Failure(MissingDrivingTime(repFrom, repTo))
    else
      var time := times[(repFrom, repTo)];
      var pairs := MemberPairs(from.members, to.members);
      var check := CheckPairs(times, pairs, 0, repFrom, repTo, time);
      if check.Failure? then
        assert !AgreesWithRepresentatives(times, from, to) by {
          var m :| 0 <= m < |pairs| && !(pairs[m] in times && times[pairs[m]] == time);
          var (a, b) := pairs[m];
          assert (a, b) in pairs;
          assert a in from.members && b in to.members;
        }
        check
      else
        assert AgreesWithRepresentatives(times, from, to) by {
          forall a, b | a in from.members && b in to.members
            ensures (a, b) in times && times[(a, b)] == time
          {
            assert (a, b) in pairs;
          }
        }
        check
  }

  /** The guard over to-groups `k` onwards, for from-group `m`. */
  function CheckGroupRow(times: DrivingTimes, groups: seq<Group>, m: nat, k: nat): (res: Result<(), Error>)
    requires WellGrouped(groups) && m < |groups| && k <= |groups|
    ensures res.Success? <==> forall k' :: k <= k' < |groups| ==> AgreesWithRepresentatives(times, groups[m], groups[k'])
    decreases |groups| - k
  {
    if k == |groups| then Success(())
    else
      var _ :- CheckGroupPair(times, groups[m], groups[k]);
      CheckGroupRow(times, groups, m, k + 1)
  }

  /** The guard over from-groups `m` onwards, in the writer's loop order. */
  function CheckGroups(times: DrivingTimes, groups: seq<Group>, m: nat): (res: Result<(), Error>)
    requires WellGrouped(groups) && m <= |groups|
    ensures res.Success? <==> forall m', k :: m <= m' < |groups| && 0 <= k < |groups| ==>
      AgreesWithRepresentatives(times, groups[m'], groups[k])
    decreases |groups| - m
  {
    if m == |groups| then Success(())
    else
      var _ :- CheckGroupRow(times, groups, m, 0);
      CheckGroups(times, groups, m + 1)
  }

  /** The time the writer puts in the cell of group pair (m, k): the representatives' time. */
  function RepresentativeTime(times: DrivingTimes, groups: seq<Group>, m: nat, k: nat): int
    requires WellGrouped(groups) && m < |groups| && k < |groups|
  {
    var reps := (Representative(groups[m]), Representative(groups[k]));
    if reps in times then times[reps] else 0
  }

  /** Matrix row `m` as written: its group's coordinates, then one time per to-group. */
  function TimeRow(times: DrivingTimes, groups: seq<Group>, coordinateText: real -> string, m: nat): (row: Row)
    requires WellGrouped(groups) && m < |groups|
    ensures |row| == 2 + |groups|
    ensures forall k :: 0 <= k < |groups| ==> TimeCell(row, k) == Number(RepresentativeTime(times, groups, m, k) as real)
  {
    HeaderCells(RowLabels(groups[m], coordinateText))
      + seq(|groups|, k requires 0 <= k < |groups| => Number(RepresentativeTime(times, groups, m, k) as real))
  }

  function DrivingTimeHeaderRows(groups: seq<Group>, coordinateText: real -> string): (rows: seq<Row>)
    ensures |rows| == 3
  {
    [ HeaderCells([Banner]),
      HeaderCells(["Latitude", ""] + LatitudeLabels(groups, coordinateText)),
      HeaderCells(["", "Longitude"] + LongitudeLabels(groups, coordinateText)) ]
  }

  /** The rows of a written sheet: three header rows, then one matrix row per group. */
  function WrittenRows(times: DrivingTimes, groups: seq<Group>, coordinateText: real -> string): (rows: seq<Row>)
    requires WellGrouped(groups)
    ensures |rows| == 3 + |groups| && rows[..3] == DrivingTimeHeaderRows(groups, coordinateText)
    ensures forall m :: 0 <= m < |groups| ==> rows[3 + m] == TimeRow(times, groups, coordinateText, m)
  {
    DrivingTimeHeaderRows(groups, coordinateText)
      + seq(|groups|, m requires 0 <= m < |groups| => TimeRow(times, groups, coordinateText, m))
  }

  /** `writeDrivingTime`: fails when some member pair disagrees with its group's representatives. */
  function WriteDrivingTimeSheet(times: DrivingTimes, groups: seq<Group>, coordinateText: real -> string)
    : (res: Result<Sheet, Error>)
    requires WellGrouped(groups)
    ensures res.Success? ==> res.value.name == DrivingTimeSheet && |res.value.rows| == 3 + |groups|
    ensures res.Success? ==> res.value.merges == [Merge(0, 0, 10)]
  {
    var _ :- CheckGroups(times, groups, 0);
    Success(Sheet(DrivingTimeSheet, WrittenRows(times, groups, coordinateText), [Merge(0, 0, 10)]))
  }

  /** The write guard passes exactly when the table is consistent over the groups. */
  lemma WriteGuardIff(times: DrivingTimes, groups: seq<Group>, coordinateText: real -> string)
    requires WellGrouped(groups)
    ensures WriteDrivingTimeSheet(times, groups, coordinateText).Success? <==> Consistent(groups, times)
  {
    if WriteDrivingTimeSheet(times, groups, coordinateText).Success? {
      forall i, j, a, b | InGroup(groups, i, a) && InGroup(groups, j, b)
        ensures && (a, b) in times
          && (Representative(groups[i]), Representative(groups[j])) in times
          && times[(a, b)] == times[(Representative(groups[i]), Representative(groups[j]))]
      {
        assert AgreesWithRepresentatives(times, groups[i], groups[j]);
      }
    }
    if Consistent(groups, times) {
      forall m, k | 0 <= m < |groups| && 0 <= k < |groups|
        ensures AgreesWithRepresentatives(times, groups[m], groups[k])
      {
        var reps := (Representative(groups[m]), Representative(groups[k]));
        assert InGroup(groups, m, reps.0) && InGroup(groups, k, reps.1);
        forall a, b | a in groups[m].members && b in groups[k].members
          ensures (a, b) in times && times[(a, b)] == times[reps]
        {
          assert InGroup(groups, m, a) && InGroup(groups, k, b);
        }
      }
    }
  }

  // ---------------------------------------------------------------------
  // Writing then reading the sheet.

  /** The matrix the writer puts on the sheet: representatives' times per group pair. */
  function RepresentativeMatrix(times: DrivingTimes, groups: seq<Group>): (matrix: seq<seq<int>>)
    requires WellGrouped(groups)
    ensures IsSquare(matrix, |groups|)
  {
    seq(|groups|, m requires 0 <= m < |groups| =>
      seq(|groups|, k requires 0 <= k < |groups| => RepresentativeTime(times, groups, m, k)))
  }

  lemma PairEnds(groups: seq<Group>, p: (Location, Location))
    requires p in GroupedPairs(groups)
    ensures p.0 in GroupedLocations(groups) && p.1 in GroupedLocations(groups)
  {
  }

  /** At one pair, broadcasting the representatives' matrix gives back the table's time. */
  lemma BroadcastRestoresPair(times: DrivingTimes, groups: seq<Group>, p: (Location, Location))
    requires WellGrouped(groups) && Consistent(groups, times)
    requires p in GroupedPairs(groups)
    ensures p in times && p in Broadcast(groups, RepresentativeMatrix(times, groups))
    ensures Broadcast(groups, RepresentativeMatrix(times, groups))[p] == times[p]
  {
    PairEnds(groups, p);
    var matrix := RepresentativeMatrix(times, groups);
    var i, j := GroupIndex(groups, p.0), GroupIndex(groups, p.1);
    BroadcastValues(groups, matrix, i, j, p.0, p.1);
    assert matrix[i][j] == RepresentativeTime(times, groups, i, j);
  }

  /** Broadcasting the representatives' matrix of a consistent table restores the table. */
  lemma BroadcastRestoresTable(times: DrivingTimes, groups: seq<Group>)
    requires WellGrouped(groups) && Consistent(groups, times)
    requires times.Keys == GroupedPairs(groups)
    ensures Broadcast(groups, RepresentativeMatrix(times, groups)) == times
  {
    var result := Broadcast(groups, RepresentativeMatrix(times, groups));
    BroadcastRestoresEntries(times, groups, result);
    SameEntriesSameMap(result, times);
  }

  lemma BroadcastRestoresEntries(times: DrivingTimes, groups: seq<Group>, result: DrivingTimes)
    requires WellGrouped(groups) && Consistent(groups, times)
    requires times.Keys == GroupedPairs(groups)
    requires result == Broadcast(groups, RepresentativeMatrix(times, groups))
    ensures forall p :: p in times ==> p in result && result[p] == times[p]
  {
    forall p | p in times
      ensures p in result && result[p] == times[p]
    {
      assert p in GroupedPairs(groups) by {
        assert p in times.Keys;
      }
      BroadcastRestoresPair(times, groups, p);
    }
  }

  lemma SameEntriesSameMap<K, V>(m1: map<K, V>, m2: map<K, V>)
    requires m1.Keys == m2.Keys && forall k :: k in m2 ==> k in m1 && m1[k] == m2[k]
    ensures m1 == m2
  {
  }

  lemma TimeRowNotEmpty(times: DrivingTimes, groups: seq<Group>, coordinateText: real -> string, m: nat)
    requires WellGrouped(groups) && m < |groups|
    ensures !IsEmptyRow(TimeRow(times, groups, coordinateText, m))
  {
    var row := TimeRow(times, groups, coordinateText, m);
    assert TimeCell(row, 0).Number?;
    assert row[2] == TimeCell(row, 0);
  }

  /** A written matrix row reads back as the representatives' times of its group. */
  lemma ReadWrittenTimeRow(times: DrivingTimes, groups: seq<Group>, coordinateText: real -> string, m: nat, r: nat)
    requires WellGrouped(groups) && m < |groups|
    requires forall p :: p in times ==> Int64Min <= times[p] <= Int64Max
    ensures var row := TimeRow(times, groups, coordinateText, m);
      && ExpectHeaders(row, DrivingTimeSheet, r, 0, RowLabels(groups[m], coordinateText)).Success?
      && ReadTimeRow(row, DrivingTimeSheet, r, |groups|, 0) == Success(RepresentativeMatrix(times, groups)[m])
  {
    var row := TimeRow(times, groups, coordinateText, m);
    var labels := RowLabels(groups[m], coordinateText);
    assert row[..2] == HeaderCells(labels);
    forall j | 0 <= j < 2
      ensures StringValue(CellAt(row, j)) == Some(labels[j])
    {
      assert CellAt(row, j) == HeaderCells(labels)[j];
    }
    forall k | 0 <= k < |groups|
      ensures IsTimeCell(TimeCell(row, k))
    {
      var t := RepresentativeTime(times, groups, m, k);
      assert (t as real).Floor == t;
    }
    var read := ReadTimeRow(row, DrivingTimeSheet, r, |groups|, 0);
    var expected := RepresentativeMatrix(times, groups)[m];
    assert read.value == expected by {
      forall k | 0 <= k < |groups|
        ensures read.value[k] == expected[k]
      {
        assert NumericValue(TimeCell(row, k)) == Some(read.value[k] as real);
      }
    }
  }

  /** The matrix rows of a written sheet, met on consecutive non-empty rows, read back. */
  lemma {:induction false} ReadWrittenTimeRows(times: DrivingTimes, groups: seq<Group>, coordinateText: real -> string,
                                               rows: seq<Row>, idx: seq<nat>, i: nat)
    requires WellGrouped(groups) && i <= |groups|
    requires forall p :: p in times ==> Int64Min <= times[p] <= Int64Max
    requires |idx| == 3 + |groups| && forall m :: 0 <= m < |idx| ==> idx[m] < |rows|
    requires forall m :: 0 <= m < |groups| ==> rows[idx[3 + m]] == TimeRow(times, groups, coordinateText, m)
    ensures ReadTimeRows(rows, idx, groups, coordinateText, i) == Success(RepresentativeMatrix(times, groups)[i..])
    decreases |groups| - i
  {
    if i < |groups| {
      ReadWrittenTimeRow(times, groups, coordinateText, i, idx[3 + i]);
      ReadWrittenTimeRows(times, groups, coordinateText, rows, idx, i + 1);
      var matrix := RepresentativeMatrix(times, groups);
      assert matrix[i..] == [matrix[i]] + matrix[i + 1..];
    }
  }

  /** The banner, "Latitude" and "Longitude" cells keep the three header rows from being skipped. */
  lemma HeaderRowsNotEmpty(groups: seq<Group>, coordinateText: real -> string)
    ensures forall k :: 0 <= k < 3 ==> !IsEmptyRow(DrivingTimeHeaderRows(groups, coordinateText)[k])
  {
    var header := DrivingTimeHeaderRows(groups, coordinateText);
    assert header[0][0] == Text(Banner, NoFill) && |Banner| > 0;
    assert header[1][0] == Text("Latitude", NoFill);
    assert header[2][1] == Text("Longitude", NoFill);
  }

  lemma WrittenRowsNotEmpty(times: DrivingTimes, groups: seq<Group>, coordinateText: real -> string)
    requires WellGrouped(groups)
    ensures var rows := WrittenRows(times, groups, coordinateText);
      forall i :: 0 <= i < |rows| ==> !IsEmptyRow(rows[i])
  {
    var rows := WrittenRows(times, groups, coordinateText);
    forall i | 0 <= i < |rows|
      ensures !IsEmptyRow(rows[i])
    {
      WrittenRowNotEmpty(times, groups, coordinateText, i);
    }
  }

  /** Row `i` of the written sheet is a header row or a matrix row, and neither is empty. */
  lemma WrittenRowNotEmpty(times: DrivingTimes, groups: seq<Group>, coordinateText: real -> string, i: nat)
    requires WellGrouped(groups) && i < 3 + |groups|
    ensures |WrittenRows(times, groups, coordinateText)| == 3 + |groups|
    ensures !IsEmptyRow(WrittenRows(times, groups, coordinateText)[i])
  {
    var rows := WrittenRows(times, groups, coordinateText);
    if i < 3 {
      HeaderRowsNotEmpty(groups, coordinateText);
      assert rows[i] == rows[..3][i];
    } else {
      TimeRowNotEmpty(times, groups, coordinateText, i - 3);
    }
  }

  /** Whatever the sheet holds, a table read from it passes the write guard. */
  lemma ReadTableIsConsistent(sheet: Sheet, groups: seq<Group>, coordinateText: real -> string)
    requires WellGrouped(groups) && ReadDrivingTimeSheet(sheet, groups, coordinateText).Success?
    ensures Consistent(groups, ReadDrivingTimeSheet(sheet, groups, coordinateText).value)
  {
    var matrix :| IsSquare(matrix, |groups|)
      && ReadDrivingTimeSheet(sheet, groups, coordinateText).value == Broadcast(groups, matrix);
    BroadcastIsConsistent(groups, matrix);
  }

  /** A sheet holding the written rows reads back as the broadcast of the representatives' matrix. */
  lemma ReadWrittenSheet(times: DrivingTimes, groups: seq<Group>, coordinateText: real -> string, sheet: Sheet)
    requires WellGrouped(groups)
    requires forall p :: p in times ==> Int64Min <= times[p] <= Int64Max
    requires sheet.rows == WrittenRows(times, groups, coordinateText)
    ensures ReadDrivingTimeSheet(sheet, groups, coordinateText)
      == Success(Broadcast(groups, RepresentativeMatrix(times, groups)))
  {
    HeadersReadBack(times, groups, coordinateText);
    var rows := WrittenRows(times, groups, coordinateText);
    var idx := NonEmptyRowsFrom(rows, 0);
    WrittenRowsVisited(times, groups, coordinateText);
    MatrixRowsAt(times, groups, coordinateText, rows, idx);
    ReadWrittenTimeRows(times, groups, coordinateText, rows, idx, 0);
    var matrix := RepresentativeMatrix(times, groups);
    assert matrix[0..] == matrix;
  }

  /** Writing a consistent table whose times fit a `long` and reading the sheet back
      gives the table unchanged. */
  lemma DrivingTimeSheetRoundTrip(times: DrivingTimes, groups: seq<Group>, coordinateText: real -> string)
    requires WellGrouped(groups) && Consistent(groups, times)
    requires times.Keys == GroupedPairs(groups)
    requires forall p :: p in times ==> Int64Min <= times[p] <= Int64Max
    ensures WriteDrivingTimeSheet(times, groups, coordinateText).Success?
    ensures ReadDrivingTimeSheet(WriteDrivingTimeSheet(times, groups, coordinateText).value, groups, coordinateText)
      == Success(times)
  {
    WriteGuardIff(times, groups, coordinateText);
    ReadWrittenSheet(times, groups, coordinateText, WriteDrivingTimeSheet(times, groups, coordinateText).value);
    BroadcastRestoresTable(times, groups);
  }

  lemma HeadersReadBack(times: DrivingTimes, groups: seq<Group>, coordinateText: real -> string)
    requires WellGrouped(groups)
    ensures var rows := WrittenRows(times, groups, coordinateText);
      var idx := NonEmptyRowsFrom(rows, 0);
      && ExpectHeader(NthRow(rows, idx, 0).1, Pos(DrivingTimeSheet, NthRow(rows, idx, 0).0, 0), Banner).Success?
      && ExpectHeaders(NthRow(rows, idx, 1).1, DrivingTimeSheet, NthRow(rows, idx, 1).0, 0,
                       ["Latitude", ""] + LatitudeLabels(groups, coordinateText)).Success?
      && ExpectHeaders(NthRow(rows, idx, 2).1, DrivingTimeSheet, NthRow(rows, idx, 2).0, 0,
                       ["", "Longitude"] + LongitudeLabels(groups, coordinateText)).Success?
  {
    var rows := WrittenRows(times, groups, coordinateText);
    WrittenRowsVisited(times, groups, coordinateText);
    var header := DrivingTimeHeaderRows(groups, coordinateText);
    assert rows[0] == header[0] && rows[1] == header[1] && rows[2] == header[2];
    HeaderRowReadsBack(rows[1], ["Latitude", ""] + LatitudeLabels(groups, coordinateText));
    HeaderRowReadsBack(rows[2], ["", "Longitude"] + LongitudeLabels(groups, coordinateText));
  }

  lemma MatrixRowsAt(times: DrivingTimes, groups: seq<Group>, coordinateText: real -> string, rows: seq<Row>, idx: seq<nat>)
    requires WellGrouped(groups) && rows == WrittenRows(times, groups, coordinateText)
    requires |idx| == |rows| && forall k :: 0 <= k < |rows| ==> idx[k] == k
    ensures forall m :: 0 <= m < |idx| ==> idx[m] < |rows|
    ensures forall m :: 0 <= m < |groups| ==> rows[idx[3 + m]] == TimeRow(times, groups, coordinateText, m)
  {
    forall m | 0 <= m < |groups|
      ensures rows[idx[3 + m]] == TimeRow(times, groups, coordinateText, m)
    {
      assert idx[3 + m] == 3 + m;
    }
  }

  /** On the written rows the `k`-th `nextRow()` lands on row `k`: none is empty. */
  lemma WrittenRowsVisited(times: DrivingTimes, groups: seq<Group>, coordinateText: real -> string)
    requires WellGrouped(groups)
    ensures var rows := WrittenRows(times, groups, coordinateText);
      var idx := NonEmptyRowsFrom(rows, 0);
      |idx| == |rows| && forall k :: 0 <= k < |rows| ==> idx[k] == k
  {
    WrittenRowsNotEmpty(times, groups, coordinateText);
    NoEmptyRowsSkipped(WrittenRows(times, groups, coordinateText), 0);
  }

  lemma HeaderRowReadsBack(row: Row, labels: seq<string>)
    requires row == HeaderCells(labels)
    ensures forall j :: 0 <= j < |labels| ==> StringValue(CellAt(row, j)) == Some(labels[j])
  {
  }
}
