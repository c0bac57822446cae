# RockTour spreadsheet codec, modelled in Dafny

This project models the spreadsheet codec of OptaPlanner's rock-tour example,
`RockTourXslxFileIO`. The codec reads a tour from an `.xlsx` workbook and writes one back:

- the tour name;
- the bus's start and end (city, coordinates, date);
- the candidate shows, each with its availability over the tour's dates;
- a table of driving times between every pair of locations;
- a read-only "Stops" view of the solved schedule.

The Apache POI workbook becomes plain data (`Grid`): sheets of rows of cells. The reader's
cursor and the writer's cell calls become pure functions over that data.

Modules, one per part of the codec:

- `Calendar`: the `LocalDate` operations the codec uses.
  - the one-day step, the first day of next month, `compareTo` and `ChronoUnit.DAYS.between`;
  - the half-open range of dates that every date loop walks.
- `JavaNumbers`: Java's `(int)` and `(long)` casts of a `double`.
  - the value is truncated toward zero, then saturated at the type's bounds.
- `Text`:
  - `Integer.toString` of a day of month;
  - the city-name order of `String.compareTo`;
  - `Collectors.joining`.
- `Domain` and `Failures`:
  - the tour entities;
  - every error the reader or writer raises;
  - the functions the codec calls but does not define, as a record of function values.
- `Grid`: the workbook, typed cell reads, header assertions, and `nextRow()` skipping empty rows.
- `DateSchema`: the variable part of the Shows header.
  - one column per tour date;
  - month labels;
  - the merged regions under them.
- `ShowCodec`: the Shows sheet.
  - the duration, revenue and availability rules of one row;
  - the header checks;
  - the whole list.
- `CoordinateGrouping`: the `distinct / sorted / groupingBy` pipeline.
  - It groups locations by (latitude, longitude).
- `DrivingTime`: the Driving time sheet.
  - derived mode, when the sheet is absent, and explicit reading;
  - the writer's consistency guard;
  - the matrix writer.
- `StopsView`: the Stops sheet.
- `Configuration` and `BusCodec`: the tour name and the Bus sheet.
- `TourCodec`: `read()` and `write()` over the whole workbook, and the round trip between them.

Where the code accepts more than the example's documentation describes, the model follows the code:

- A negative revenue opportunity is accepted. The reader only checks that the value is a whole `int`.
- A bus whose start date is not before its end date is accepted. Every date loop then simply runs zero times.

The show loop is modelled as computing every visited row's outcome, then returning the first failure among them, if there is one.
The Java loop stops at the first row that throws. Both give the same result, because one row's outcome depends only on that row and its number.

## Model

| member | source | states |
|---|---|---|
| `Calendar.Next` | optaplanner-examples/src/main/java/org/optaplanner/examples/rocktour/persistence/RockTourXslxFileIO.java:151 | `plusDays(1)` yields a later date |
| `Calendar.NextIsOneDayLater` | optaplanner-examples/src/main/java/org/optaplanner/examples/rocktour/persistence/RockTourXslxFileIO.java:151 | `plusDays(1)` advances the day count by exactly one, across month and year ends |
| `Calendar.BeforeIsEarlier` | optaplanner-examples/src/main/java/org/optaplanner/examples/rocktour/persistence/RockTourXslxFileIO.java:151 | `compareTo(...) < 0` on dates holds exactly when the first date has the smaller day count |
| `Calendar.DayNumberInjective` | optaplanner-examples/src/main/java/org/optaplanner/examples/rocktour/persistence/RockTourXslxFileIO.java:481-482 | the `equals` the Stops filter uses: two dates with the same day count are the same date |
| `Calendar.PlusDaysReachesNextMonth` | optaplanner-examples/src/main/java/org/optaplanner/examples/rocktour/persistence/RockTourXslxFileIO.java:382 | stepping past the last day of a month lands on `firstDayOfNextMonth` |
| `Calendar.DateRangeShape` | optaplanner-examples/src/main/java/org/optaplanner/examples/rocktour/persistence/RockTourXslxFileIO.java:151 | the date loop visits `DAYS.between(start, end)` dates when start < end and none otherwise; its k-th date is k days after start |
| `Calendar.DateRangeMembers` | optaplanner-examples/src/main/java/org/optaplanner/examples/rocktour/persistence/RockTourXslxFileIO.java:198 | the date loop visits a date exactly when start <= date < end |
| `Calendar.DateRangeIncreasing` | optaplanner-examples/src/main/java/org/optaplanner/examples/rocktour/persistence/RockTourXslxFileIO.java:166 | the date loop visits strictly increasing dates, so none twice |
| `JavaNumbers.TruncateTowardZero` | optaplanner-examples/src/main/java/org/optaplanner/examples/rocktour/persistence/RockTourXslxFileIO.java:180 | the cast drops the fraction toward zero: the result is within one of the argument, has its sign, never exceeds it in magnitude, and equals it when it is integral |
| `JavaNumbers.IntCast` | optaplanner-examples/src/main/java/org/optaplanner/examples/rocktour/persistence/RockTourXslxFileIO.java:191 | `(int)` always lands in `int` range, and equals its argument exactly when the argument is a whole number in that range |
| `JavaNumbers.LongCast` | optaplanner-examples/src/main/java/org/optaplanner/examples/rocktour/persistence/RockTourXslxFileIO.java:269 | `(long)` always lands in `long` range, and equals its argument exactly when the argument is a whole number in that range |
| `Text.DecimalText` | optaplanner-examples/src/main/java/org/optaplanner/examples/rocktour/persistence/RockTourXslxFileIO.java:167 | `Integer.toString` of a day is a non-empty run of digits, without a leading zero, whose decimal value is the day |
| `Text.StringLessIrreflexive` | optaplanner-examples/src/main/java/org/optaplanner/examples/rocktour/persistence/RockTourXslxFileIO.java:224 | the city-name tie-break never ranks a name before itself |
| `Text.StringLessTransitive` | optaplanner-examples/src/main/java/org/optaplanner/examples/rocktour/persistence/RockTourXslxFileIO.java:224 | the city-name tie-break is transitive |
| `Text.StringLessTotal` | optaplanner-examples/src/main/java/org/optaplanner/examples/rocktour/persistence/RockTourXslxFileIO.java:224 | the city-name tie-break ranks any two different names one way or the other |
| `Text.JoinLength` | optaplanner-examples/src/main/java/org/optaplanner/examples/rocktour/persistence/RockTourXslxFileIO.java:483 | a `joining(", ")` text is as long as its parts together plus one separator between each pair of neighbours |
| `Text.JoinAppend` | optaplanner-examples/src/main/java/org/optaplanner/examples/rocktour/persistence/RockTourXslxFileIO.java:484 | joining two non-empty lists is joining each and putting one separator between them |
| `Text.JoinParts` | optaplanner-examples/src/main/java/org/optaplanner/examples/rocktour/persistence/RockTourXslxFileIO.java:483-484 | part k of a `joining(", ")` text sits right after the parts before it and their separators, followed by a separator unless it is the last |
| `Grid.ReadString` | optaplanner-examples/src/main/java/org/optaplanner/examples/rocktour/persistence/RockTourXslxFileIO.java:174-175 | a text cell reads as its text and a blank as ""; any other cell is a wrong-type error at that position |
| `Grid.ReadNumber` | optaplanner-examples/src/main/java/org/optaplanner/examples/rocktour/persistence/RockTourXslxFileIO.java:176-177 | a numeric cell reads as its number and a blank as 0; any other cell is a wrong-type error |
| `Grid.ReadBoolean` | optaplanner-examples/src/main/java/org/optaplanner/examples/rocktour/persistence/RockTourXslxFileIO.java:196 | a boolean cell reads as its flag and a blank as false; any other cell is a wrong-type error |
| `Grid.ExpectHeader` | optaplanner-examples/src/main/java/org/optaplanner/examples/rocktour/persistence/RockTourXslxFileIO.java:135 | `readHeaderCell` passes exactly when the cell reads as the expected text |
| `Grid.ExpectHeaders` | optaplanner-examples/src/main/java/org/optaplanner/examples/rocktour/persistence/RockTourXslxFileIO.java:135-142 | consecutive header assertions pass exactly when every cell from the first column on reads as its label |
| `Grid.HeaderCells` | optaplanner-examples/src/main/java/org/optaplanner/examples/rocktour/persistence/RockTourXslxFileIO.java:361-368 | `nextHeaderCell` writes cells that read back as their labels |
| `Grid.HeaderCellsPass` | optaplanner-examples/src/main/java/org/optaplanner/examples/rocktour/persistence/RockTourXslxFileIO.java:107-112 | a row of written header cells passes the header check for the same labels |
| `Grid.NonEmptyRowsFrom` | optaplanner-examples/src/main/java/org/optaplanner/examples/rocktour/persistence/RockTourXslxFileIO.java:171 | `while (nextRow())` visits, in order, exactly the non-empty rows |
| `Grid.NoEmptyRowsSkipped` | optaplanner-examples/src/main/java/org/optaplanner/examples/rocktour/persistence/RockTourXslxFileIO.java:171 | when no row is empty, `nextRow()` visits every row in turn |
| `Grid.FindSheet` | optaplanner-examples/src/main/java/org/optaplanner/examples/rocktour/persistence/RockTourXslxFileIO.java:131 | `nextSheet(name)` finds the first sheet whose name matches ignoring case, as POI's `getSheet` does, and otherwise fails with a missing-sheet error |
| `Grid.FindSheetIgnoresCase` | optaplanner-examples/src/main/java/org/optaplanner/examples/rocktour/persistence/RockTourXslxFileIO.java:245 | looking up "Driving time" or any other name finds the same sheet whatever the letter case of the name |
| `DateSchema.OneColumnPerDate` | optaplanner-examples/src/main/java/org/optaplanner/examples/rocktour/persistence/RockTourXslxFileIO.java:166-168 | there is one date column per day of [start, end), and a date has a column exactly when it lies in that range |
| `DateSchema.DateColumns` | optaplanner-examples/src/main/java/org/optaplanner/examples/rocktour/persistence/RockTourXslxFileIO.java:151-168 | there is one date column per date the header loop visits, in the loop's order |
| `DateSchema.ColumnDatesIncreasing` | optaplanner-examples/src/main/java/org/optaplanner/examples/rocktour/persistence/RockTourXslxFileIO.java:400-402 | date columns run left to right in strictly increasing date order |
| `DateSchema.MonthLabelPlacement` | optaplanner-examples/src/main/java/org/optaplanner/examples/rocktour/persistence/RockTourXslxFileIO.java:152-156 | a month label sits on the first date column and on every first of a month, and nowhere else |
| `DateSchema.MonthCells` | optaplanner-examples/src/main/java/org/optaplanner/examples/rocktour/persistence/RockTourXslxFileIO.java:379-390 | the writer leaves a blank exactly where no month opens; every month cell reads as the label the reader expects |
| `DateSchema.ColumnAfter` | optaplanner-examples/src/main/java/org/optaplanner/examples/rocktour/persistence/RockTourXslxFileIO.java:379 | the column k places to the right stands for the date k days later |
| `DateSchema.MonthSpanIsNearer` | optaplanner-examples/src/main/java/org/optaplanner/examples/rocktour/persistence/RockTourXslxFileIO.java:382-385 | a label's merged span runs to the first of the next month or to the end date, whichever comes first |
| `DateSchema.MonthSpanValue` | optaplanner-examples/src/main/java/org/optaplanner/examples/rocktour/persistence/RockTourXslxFileIO.java:386-387 | a month label's span is the rest of its month, or the rest of the date columns if that is fewer |
| `DateSchema.InsideMonthSpan` | optaplanner-examples/src/main/java/org/optaplanner/examples/rocktour/persistence/RockTourXslxFileIO.java:380 | no month label opens strictly inside another label's month |
| `DateSchema.MonthSpanReachesNextLabel` | optaplanner-examples/src/main/java/org/optaplanner/examples/rocktour/persistence/RockTourXslxFileIO.java:380-387 | a label's span is at least one column, stays within the columns, covers no other label, and ends just before the next label or on the last column |
| `DateSchema.MonthMergesSkip` | optaplanner-examples/src/main/java/org/optaplanner/examples/rocktour/persistence/RockTourXslxFileIO.java:388-390 | columns that open no month add no merged region |
| `DateSchema.MonthMergesMembers` | optaplanner-examples/src/main/java/org/optaplanner/examples/rocktour/persistence/RockTourXslxFileIO.java:379-391 | the writer adds a merged region exactly for each column that opens a month: on the month row, from that column across the month's span |
| `DateSchema.MonthMergesTileFrom` | optaplanner-examples/src/main/java/org/optaplanner/examples/rocktour/persistence/RockTourXslxFileIO.java:379-391 | from any month label on, the month merged regions tile the remaining date columns |
| `DateSchema.MonthMergesTile` | optaplanner-examples/src/main/java/org/optaplanner/examples/rocktour/persistence/RockTourXslxFileIO.java:386-387 | for a non-empty range, the month merged regions tile the date columns exactly: each is non-empty, each starts where the previous one ends, and the last ends on the last column |
| `ShowCodec.DecodeDuration` | optaplanner-examples/src/main/java/org/optaplanner/examples/rocktour/persistence/RockTourXslxFileIO.java:179-189 | a duration is accepted exactly when twice it is a whole number from 1 up to `Integer.MAX_VALUE`; it is stored as that many half days; a whole but too-small count is "too short" and anything else "not a multiple of 0.5" |
| `ShowCodec.DecodeRevenue` | optaplanner-examples/src/main/java/org/optaplanner/examples/rocktour/persistence/RockTourXslxFileIO.java:190-195 | a revenue is accepted exactly when it is a whole number in `int` range, and kept as that number |
| `ShowCodec.DurationRoundTrip` | optaplanner-examples/src/main/java/org/optaplanner/examples/rocktour/persistence/RockTourXslxFileIO.java:409 | every positive half-day count in `int` range, written as days, reads back as the same count |
| `ShowCodec.DecodeAvailability` | optaplanner-examples/src/main/java/org/optaplanner/examples/rocktour/persistence/RockTourXslxFileIO.java:197-207 | the date cells are accepted exactly when every one reads as empty text; the available dates are exactly those whose cell, text or blank, lacks the unavailable fill |
| `ShowCodec.DateAvailability` | optaplanner-examples/src/main/java/org/optaplanner/examples/rocktour/persistence/RockTourXslxFileIO.java:199-202 | a tour date is available exactly when its cell, an empty text cell or a blank, lacks the unavailable fill |
| `ShowCodec.DecodeFields` | optaplanner-examples/src/main/java/org/optaplanner/examples/rocktour/persistence/RockTourXslxFileIO.java:174-196 | the leading cells are read exactly when venue and city are text, coordinates, duration and revenue are numbers, the flag is boolean or blank, and duration and revenue pass their checks; each field is the value of its cell |
| `ShowCodec.DecodeShow` | optaplanner-examples/src/main/java/org/optaplanner/examples/rocktour/persistence/RockTourXslxFileIO.java:172-214 | a decoded show carries the given id, no date, a duration of at least one half day, an `int` revenue, and a non-empty set of tour dates |
| `ShowCodec.DecodeShowSucceeds` | optaplanner-examples/src/main/java/org/optaplanner/examples/rocktour/persistence/RockTourXslxFileIO.java:172-211 | a show row is read exactly when its leading cells and its date cells read and some date is available; with every date unavailable it is the no-available-date error at the row's last date column, naming the venue |
| `ShowCodec.DecodeShowCells` | optaplanner-examples/src/main/java/org/optaplanner/examples/rocktour/persistence/RockTourXslxFileIO.java:174-212 | every field of a read show is the value of its own cell: venue, city, coordinates, the duration as half days, the revenue, the flag, and the available dates from the date cells |
| `ShowCodec.EncodeShow` | optaplanner-examples/src/main/java/org/optaplanner/examples/rocktour/persistence/RockTourXslxFileIO.java:403-418 | a written show row has seven fields, then one blank per date that has the unavailable fill exactly on the show's unavailable dates |
| `ShowCodec.ShowRowRoundTrip` | optaplanner-examples/src/main/java/org/optaplanner/examples/rocktour/persistence/RockTourXslxFileIO.java:404-418 | a written valid show reads back as the same show, without a date |
| `ShowCodec.FieldsRoundTrip` | optaplanner-examples/src/main/java/org/optaplanner/examples/rocktour/persistence/RockTourXslxFileIO.java:404-411 | the seven written leading cells of a valid show read back as its fields |
| `ShowCodec.AvailabilityRoundTrip` | optaplanner-examples/src/main/java/org/optaplanner/examples/rocktour/persistence/RockTourXslxFileIO.java:412-418 | the written date cells of a valid show read back as its available dates |
| `ShowCodec.CheckShowHeaders` | optaplanner-examples/src/main/java/org/optaplanner/examples/rocktour/persistence/RockTourXslxFileIO.java:134-168 | the header check passes exactly when the banner, month and field rows carry the labels the date columns determine |
| `ShowCodec.WrittenHeadersPass` | optaplanner-examples/src/main/java/org/optaplanner/examples/rocktour/persistence/RockTourXslxFileIO.java:360-402 | the writer's three header rows pass the reader's header check |
| `ShowCodec.DecodeShows` | optaplanner-examples/src/main/java/org/optaplanner/examples/rocktour/persistence/RockTourXslxFileIO.java:169-215 | the show loop yields one valid show per visited row, with ids counting up from the first; `ShowCodec.DecodeShowsRows` ties each to its row |
| `ShowCodec.CollectShows` | optaplanner-examples/src/main/java/org/optaplanner/examples/rocktour/persistence/RockTourXslxFileIO.java:171-215 | the loop succeeds exactly when every row's outcome is a show, returns them in row order, and otherwise fails with the first failing row's error |
| `ShowCodec.DecodeShowsRows` | optaplanner-examples/src/main/java/org/optaplanner/examples/rocktour/persistence/RockTourXslxFileIO.java:171-214 | show m of the loop is the decoding of visited row m, numbered m |
| `ShowCodec.DecodeShowsSucceeds` | optaplanner-examples/src/main/java/org/optaplanner/examples/rocktour/persistence/RockTourXslxFileIO.java:171-215 | the loop succeeds exactly when every visited row decodes; otherwise its error is that of the first row that does not |
| `ShowCodec.ReadShowSheet` | optaplanner-examples/src/main/java/org/optaplanner/examples/rocktour/persistence/RockTourXslxFileIO.java:130-217 | the reader returns one show per non-empty row below the headers, numbered 0, 1, 2, ..., each valid and without a date |
| `ShowCodec.ReadShowSheetRows` | optaplanner-examples/src/main/java/org/optaplanner/examples/rocktour/persistence/RockTourXslxFileIO.java:169-214 | show m of a read sheet is the decoding of the m-th non-empty row below the headers |
| `ShowCodec.ReadShowSheetSucceeds` | optaplanner-examples/src/main/java/org/optaplanner/examples/rocktour/persistence/RockTourXslxFileIO.java:130-215 | a Shows sheet is read exactly when its header rows pass and every non-empty row below them decodes |
| `ShowCodec.ReadShowList` | optaplanner-examples/src/main/java/org/optaplanner/examples/rocktour/persistence/RockTourXslxFileIO.java:131 | a workbook without a Shows sheet is a missing-sheet error |
| `ShowCodec.WriteShowSheet` | optaplanner-examples/src/main/java/org/optaplanner/examples/rocktour/persistence/RockTourXslxFileIO.java:356-419 | the writer emits three header rows, then one row per show in list order |
| `ShowCodec.WrittenMergesCoverDates` | optaplanner-examples/src/main/java/org/optaplanner/examples/rocktour/persistence/RockTourXslxFileIO.java:369-370 | the Availability banner is merged across exactly the date columns, and the month regions tile those columns |
| `ShowCodec.DecodeEncodedShow` | optaplanner-examples/src/main/java/org/optaplanner/examples/rocktour/persistence/RockTourXslxFileIO.java:403-405 | a written show row read at any position decodes to its show, numbered as the show is |
| `ShowCodec.DecodeEncodedShows` | optaplanner-examples/src/main/java/org/optaplanner/examples/rocktour/persistence/RockTourXslxFileIO.java:171-215 | the show loop over written rows returns the written shows in order, without dates |
| `ShowCodec.ShowSheetRoundTrip` | optaplanner-examples/src/main/java/org/optaplanner/examples/rocktour/persistence/RockTourXslxFileIO.java:403-419 | writing a valid, consecutively numbered show list and reading it back gives the same list, without dates |
| `CoordinateGrouping.LocationBeforeIrreflexive` | optaplanner-examples/src/main/java/org/optaplanner/examples/rocktour/persistence/RockTourXslxFileIO.java:224 | the sort comparator never ranks a location before itself |
| `CoordinateGrouping.LocationBeforeTransitive` | optaplanner-examples/src/main/java/org/optaplanner/examples/rocktour/persistence/RockTourXslxFileIO.java:224 | the sort comparator is transitive |
| `CoordinateGrouping.LocationBeforeTotal` | optaplanner-examples/src/main/java/org/optaplanner/examples/rocktour/persistence/RockTourXslxFileIO.java:224 | the sort comparator ranks any two different locations one way or the other |
| `CoordinateGrouping.Insert` | optaplanner-examples/src/main/java/org/optaplanner/examples/rocktour/persistence/RockTourXslxFileIO.java:223-224 | inserting into a sorted distinct list keeps it sorted and distinct and adds exactly that location |
| `CoordinateGrouping.SortDistinct` | optaplanner-examples/src/main/java/org/optaplanner/examples/rocktour/persistence/RockTourXslxFileIO.java:220-224 | `distinct().sorted(...)` yields a strictly sorted list of exactly the input locations |
| `CoordinateGrouping.SortedArrangementUnique` | optaplanner-examples/src/main/java/org/optaplanner/examples/rocktour/persistence/RockTourXslxFileIO.java:433 | two strictly sorted lists of the same locations are the same list |
| `CoordinateGrouping.KeysInOrder` | optaplanner-examples/src/main/java/org/optaplanner/examples/rocktour/persistence/RockTourXslxFileIO.java:225-226 | the `LinkedHashMap` keys are distinct and are exactly the coordinates that occur |
| `CoordinateGrouping.MembersWith` | optaplanner-examples/src/main/java/org/optaplanner/examples/rocktour/persistence/RockTourXslxFileIO.java:225 | a group's list holds exactly the locations with its coordinates |
| `CoordinateGrouping.GroupBy` | optaplanner-examples/src/main/java/org/optaplanner/examples/rocktour/persistence/RockTourXslxFileIO.java:434-435 | `groupingBy` makes one group per distinct coordinate pair |
| `CoordinateGrouping.MembersSorted` | optaplanner-examples/src/main/java/org/optaplanner/examples/rocktour/persistence/RockTourXslxFileIO.java:432-433 | a group lists its members in sorted order |
| `CoordinateGrouping.KeysAscending` | optaplanner-examples/src/main/java/org/optaplanner/examples/rocktour/persistence/RockTourXslxFileIO.java:224-226 | the group keys ascend strictly by latitude, then longitude |
| `CoordinateGrouping.GroupsWellFormed` | optaplanner-examples/src/main/java/org/optaplanner/examples/rocktour/persistence/RockTourXslxFileIO.java:220-226 | groups ascend by key, none is empty, each holds exactly the inputs with its coordinates, and each lists them by ascending city name |
| `CoordinateGrouping.ExactlyOneGroup` | optaplanner-examples/src/main/java/org/optaplanner/examples/rocktour/persistence/RockTourXslxFileIO.java:429-435 | every location lands in exactly one group |
| `CoordinateGrouping.GroupingIgnoresOrder` | optaplanner-examples/src/main/java/org/optaplanner/examples/rocktour/persistence/RockTourXslxFileIO.java:429-433 | the grouping depends only on which locations occur, so the reader and the writer index the matrix alike |
| `DrivingTime.LocationGroupsWellGrouped` | optaplanner-examples/src/main/java/org/optaplanner/examples/rocktour/persistence/RockTourXslxFileIO.java:220-226 | the groups are non-empty, their members share the group's key, and keys are distinct |
| `DrivingTime.GroupIndex` | optaplanner-examples/src/main/java/org/optaplanner/examples/rocktour/persistence/RockTourXslxFileIO.java:274-277 | every grouped location has a group that holds it |
| `DrivingTime.GroupIndexUnique` | optaplanner-examples/src/main/java/org/optaplanner/examples/rocktour/persistence/RockTourXslxFileIO.java:264 | a location belongs to one group only |
| `DrivingTime.Broadcast` | optaplanner-examples/src/main/java/org/optaplanner/examples/rocktour/persistence/RockTourXslxFileIO.java:274-278 | writing a matrix cell to every member pair of its two groups fills in exactly the pairs of grouped locations |
| `DrivingTime.BroadcastValues` | optaplanner-examples/src/main/java/org/optaplanner/examples/rocktour/persistence/RockTourXslxFileIO.java:276 | every member pair of groups i and j gets the matrix cell (i, j) |
| `DrivingTime.BroadcastIsConsistent` | optaplanner-examples/src/main/java/org/optaplanner/examples/rocktour/persistence/RockTourXslxFileIO.java:260-280 | a table read from the sheet gives locations at the same coordinates the same times |
| `DrivingTime.DerivedIsConsistent` | optaplanner-examples/src/main/java/org/optaplanner/examples/rocktour/persistence/RockTourXslxFileIO.java:232-240 | when air distance depends only on coordinates, the derived table gives locations at the same coordinates the same times |
| `DrivingTime.GroupOf` | optaplanner-examples/src/main/java/org/optaplanner/examples/rocktour/persistence/RockTourXslxFileIO.java:225 | every input location has a group, which holds exactly the inputs at its coordinates |
| `DrivingTime.ConsistentImpliesInvariant` | optaplanner-examples/src/main/java/org/optaplanner/examples/rocktour/persistence/RockTourXslxFileIO.java:453-463 | a table that passes the group check gives same-coordinate locations equal times |
| `DrivingTime.InvariantImpliesConsistent` | optaplanner-examples/src/main/java/org/optaplanner/examples/rocktour/persistence/RockTourXslxFileIO.java:453-463 | a complete table with equal times for same-coordinate locations passes the group check |
| `DrivingTime.ConsistentIffCoordinateInvariant` | optaplanner-examples/src/main/java/org/optaplanner/examples/rocktour/persistence/RockTourXslxFileIO.java:448-466 | the writer's group check holds exactly when the table is complete and depends only on coordinates |
| `DrivingTime.GroupedLocationsAreInputs` | optaplanner-examples/src/main/java/org/optaplanner/examples/rocktour/persistence/RockTourXslxFileIO.java:220-223 | the grouped locations are exactly the bus's and the shows' locations |
| `DrivingTime.DeriveTimesForInputs` | optaplanner-examples/src/main/java/org/optaplanner/examples/rocktour/persistence/RockTourXslxFileIO.java:227-242 | with no Driving time sheet, the table holds a pair of locations exactly when both are the bus's or a show's location, with their air distance |
| `DrivingTime.LatitudeLabels` | optaplanner-examples/src/main/java/org/optaplanner/examples/rocktour/persistence/RockTourXslxFileIO.java:251-253 | one latitude label per group |
| `DrivingTime.LongitudeLabels` | optaplanner-examples/src/main/java/org/optaplanner/examples/rocktour/persistence/RockTourXslxFileIO.java:257-259 | one longitude label per group |
| `DrivingTime.ReadTimeRow` | optaplanner-examples/src/main/java/org/optaplanner/examples/rocktour/persistence/RockTourXslxFileIO.java:267-273 | a matrix row is accepted exactly when every time cell holds a whole number in `long` range, and it reads as those numbers |
| `DrivingTime.ReadTimeRows` | optaplanner-examples/src/main/java/org/optaplanner/examples/rocktour/persistence/RockTourXslxFileIO.java:260-273 | the matrix rows are read exactly when the (3 + i)-th visited row carries group i's coordinates and whole times for every group, and then read in group order as those times |
| `DrivingTime.ReadDrivingTimeSheet` | optaplanner-examples/src/main/java/org/optaplanner/examples/rocktour/persistence/RockTourXslxFileIO.java:245-280 | a read table covers exactly the pairs of grouped locations, and broadcasts one square matrix over the groups |
| `DrivingTime.CheckDrivingTimeHeaders` | optaplanner-examples/src/main/java/org/optaplanner/examples/rocktour/persistence/RockTourXslxFileIO.java:246-259 | the header checks pass exactly when the first three visited rows carry the banner, then the latitude labels, then the longitude labels |
| `DrivingTime.ReadDrivingTimeSheetSucceeds` | optaplanner-examples/src/main/java/org/optaplanner/examples/rocktour/persistence/RockTourXslxFileIO.java:245-273 | the sheet is read exactly when its three header rows pass and every group's matrix row carries its coordinates and whole times |
| `DrivingTime.ReadDrivingTimeSheetMatrix` | optaplanner-examples/src/main/java/org/optaplanner/examples/rocktour/persistence/RockTourXslxFileIO.java:260-280 | a read table is the matrix read from the rows below the headers, broadcast over the groups |
| `DrivingTime.ResolveDrivingTimes` | optaplanner-examples/src/main/java/org/optaplanner/examples/rocktour/persistence/RockTourXslxFileIO.java:227-245 | the table covers exactly the grouped pairs; without the sheet it is the derived air-distance table |
| `DrivingTime.MemberPairs` | optaplanner-examples/src/main/java/org/optaplanner/examples/rocktour/persistence/RockTourXslxFileIO.java:454-455 | the guard's nested loops visit exactly the member pairs of the two groups |
| `DrivingTime.CheckPairs` | optaplanner-examples/src/main/java/org/optaplanner/examples/rocktour/persistence/RockTourXslxFileIO.java:456-461 | the inner guard passes exactly when every visited pair has the representative time; otherwise it is a missing or inconsistent time |
| `DrivingTime.CheckGroupPair` | optaplanner-examples/src/main/java/org/optaplanner/examples/rocktour/persistence/RockTourXslxFileIO.java:453-463 | the guard for two groups passes exactly when every member pair has the representatives' time |
| `DrivingTime.CheckGroupRow` | optaplanner-examples/src/main/java/org/optaplanner/examples/rocktour/persistence/RockTourXslxFileIO.java:452-465 | the guard for a source group passes exactly when it passes against every target group |
| `DrivingTime.CheckGroups` | optaplanner-examples/src/main/java/org/optaplanner/examples/rocktour/persistence/RockTourXslxFileIO.java:448-466 | the whole guard passes exactly when every pair of groups agrees with its representatives |
| `DrivingTime.DrivingTimeHeaderRows` | optaplanner-examples/src/main/java/org/optaplanner/examples/rocktour/persistence/RockTourXslxFileIO.java:425-447 | the writer emits three header rows; `DrivingTime.HeadersReadBack` states that they pass the banner, latitude and longitude checks |
| `DrivingTime.WriteDrivingTimeSheet` | optaplanner-examples/src/main/java/org/optaplanner/examples/rocktour/persistence/RockTourXslxFileIO.java:423-428 | the sheet is named "Driving time", has three header rows and one row per group, and merges the banner over columns 0 to 10 |
| `DrivingTime.WriteGuardIff` | optaplanner-examples/src/main/java/org/optaplanner/examples/rocktour/persistence/RockTourXslxFileIO.java:448-466 | writing succeeds exactly when every pair of locations has the same time as its groups' representatives |
| `DrivingTime.RepresentativeMatrix` | optaplanner-examples/src/main/java/org/optaplanner/examples/rocktour/persistence/RockTourXslxFileIO.java:453 | the representatives' times form a square matrix over the groups |
| `DrivingTime.BroadcastRestoresPair` | optaplanner-examples/src/main/java/org/optaplanner/examples/rocktour/persistence/RockTourXslxFileIO.java:453-464 | in a complete, consistent table, broadcasting the representatives' times gives each pair its own time back |
| `DrivingTime.BroadcastRestoresTable` | optaplanner-examples/src/main/java/org/optaplanner/examples/rocktour/persistence/RockTourXslxFileIO.java:464 | broadcasting the written matrix rebuilds a complete, consistent table exactly |
| `DrivingTime.TimeRowNotEmpty` | optaplanner-examples/src/main/java/org/optaplanner/examples/rocktour/persistence/RockTourXslxFileIO.java:450 | a written matrix row is never empty, so `nextRow()` never skips it |
| `DrivingTime.ReadWrittenTimeRow` | optaplanner-examples/src/main/java/org/optaplanner/examples/rocktour/persistence/RockTourXslxFileIO.java:261-273 | a written matrix row passes the label check and reads back as the representatives' times |
| `DrivingTime.ReadWrittenTimeRows` | optaplanner-examples/src/main/java/org/optaplanner/examples/rocktour/persistence/RockTourXslxFileIO.java:260-280 | the written matrix rows read back as the representative matrix |
| `DrivingTime.WrittenRowsNotEmpty` | optaplanner-examples/src/main/java/org/optaplanner/examples/rocktour/persistence/RockTourXslxFileIO.java:425-466 | no written row of the sheet is empty |
| `DrivingTime.ReadTableIsConsistent` | optaplanner-examples/src/main/java/org/optaplanner/examples/rocktour/persistence/RockTourXslxFileIO.java:274-278 | any table read from the sheet passes the writer's guard |
| `DrivingTime.HeadersReadBack` | optaplanner-examples/src/main/java/org/optaplanner/examples/rocktour/persistence/RockTourXslxFileIO.java:246-259 | the written header rows pass the reader's banner, latitude and longitude checks |
| `DrivingTime.ReadWrittenSheet` | optaplanner-examples/src/main/java/org/optaplanner/examples/rocktour/persistence/RockTourXslxFileIO.java:245-281 | the written sheet reads back as the representative matrix broadcast over the groups |
| `DrivingTime.DrivingTimeSheetRoundTrip` | optaplanner-examples/src/main/java/org/optaplanner/examples/rocktour/persistence/RockTourXslxFileIO.java:423-468 | a complete, consistent table in `long` range is written without error and read back unchanged |
| `StopsView.ShowIndicesOn` | optaplanner-examples/src/main/java/org/optaplanner/examples/rocktour/persistence/RockTourXslxFileIO.java:482 | the filter keeps, in list order, exactly the shows on the given date (or with none) |
| `StopsView.StopGroups` | optaplanner-examples/src/main/java/org/optaplanner/examples/rocktour/persistence/RockTourXslxFileIO.java:478-488 | the view has one group per tour date plus one for the unassigned shows |
| `StopsView.DatedMembership` | optaplanner-examples/src/main/java/org/optaplanner/examples/rocktour/persistence/RockTourXslxFileIO.java:478-484 | the row for the tour's g-th date lists exactly the shows dated that day |
| `StopsView.UnassignedMembership` | optaplanner-examples/src/main/java/org/optaplanner/examples/rocktour/persistence/RockTourXslxFileIO.java:486-490 | the Unassigned row lists exactly the shows without a date |
| `StopsView.StopsMembership` | optaplanner-examples/src/main/java/org/optaplanner/examples/rocktour/persistence/RockTourXslxFileIO.java:478-490 | each show is listed on exactly the row for its date, or on the Unassigned row when undated |
| `StopsView.OutOfRangeUnlisted` | optaplanner-examples/src/main/java/org/optaplanner/examples/rocktour/persistence/RockTourXslxFileIO.java:478 | a show dated outside [start, end) appears on no row |
| `StopsView.StopsKeepListOrder` | optaplanner-examples/src/main/java/org/optaplanner/examples/rocktour/persistence/RockTourXslxFileIO.java:488 | every row lists its shows in show-list order |
| `StopsView.StopsRowContents` | optaplanner-examples/src/main/java/org/optaplanner/examples/rocktour/persistence/RockTourXslxFileIO.java:478-490 | row g + 1 holds its date label, then the venues and the cities, joined with ", ", of exactly the shows whose date falls in slot g, in show-list order |
| `StopsView.StopsRowsFollowDates` | optaplanner-examples/src/main/java/org/optaplanner/examples/rocktour/persistence/RockTourXslxFileIO.java:476-480 | for start < end the view has `DAYS.between + 2` rows, and the k-th date row is labelled with the date k days after start |
| `Configuration.ReadTourName` | optaplanner-examples/src/main/java/org/optaplanner/examples/rocktour/persistence/RockTourXslxFileIO.java:84-91 | the name is read exactly when the first row is headed "Tour name" and the next cell is text matching the pattern; a non-matching name is rejected at its cell |
| `Configuration.ReadConfiguration` | optaplanner-examples/src/main/java/org/optaplanner/examples/rocktour/persistence/RockTourXslxFileIO.java:83-91 | a workbook without a Configuration sheet is a missing-sheet error, and an accepted name matches the pattern |
| `Configuration.WriteConfiguration` | optaplanner-examples/src/main/java/org/optaplanner/examples/rocktour/persistence/RockTourXslxFileIO.java:312-321 | the writer emits the "Tour name" header followed by the name, then an empty row, then a row that passes the constraint header check |
| `Configuration.ConfigurationRoundTrip` | optaplanner-examples/src/main/java/org/optaplanner/examples/rocktour/persistence/RockTourXslxFileIO.java:314-316 | a written name reads back exactly when it matches the pattern; otherwise it is rejected at the name cell |
| `BusCodec.ParseDate` | optaplanner-examples/src/main/java/org/optaplanner/examples/rocktour/persistence/RockTourXslxFileIO.java:119 | a date text is accepted exactly when the day format parses it |
| `BusCodec.ReadBusLine` | optaplanner-examples/src/main/java/org/optaplanner/examples/rocktour/persistence/RockTourXslxFileIO.java:113-119 | a bus line is accepted exactly when it has its label, a text city, numeric coordinates and a parsable date; it reads as those values |
| `BusCodec.ReadBusSheet` | optaplanner-examples/src/main/java/org/optaplanner/examples/rocktour/persistence/RockTourXslxFileIO.java:103-128 | an accepted Bus sheet has the header row, then the start line, then the end line, and the bus is built from them |
| `BusCodec.ReadBus` | optaplanner-examples/src/main/java/org/optaplanner/examples/rocktour/persistence/RockTourXslxFileIO.java:104 | a workbook without a Bus sheet is a missing-sheet error |
| `BusCodec.BusLine` | optaplanner-examples/src/main/java/org/optaplanner/examples/rocktour/persistence/RockTourXslxFileIO.java:342-346 | a written bus line has five cells |
| `BusCodec.WriteBusSheet` | optaplanner-examples/src/main/java/org/optaplanner/examples/rocktour/persistence/RockTourXslxFileIO.java:332-354 | the writer emits a sheet named "Bus" with three rows; `BusCodec.BusRoundTrip` states what they hold |
| `BusCodec.BusLineRoundTrip` | optaplanner-examples/src/main/java/org/optaplanner/examples/rocktour/persistence/RockTourXslxFileIO.java:341-346 | a written bus line reads back as its location and date, given that parsing a formatted day gives the day back |
| `BusCodec.ReadBusFromLines` | optaplanner-examples/src/main/java/org/optaplanner/examples/rocktour/persistence/RockTourXslxFileIO.java:126-127 | the reader builds the bus from the header check and its two lines |
| `BusCodec.BusRoundTrip` | optaplanner-examples/src/main/java/org/optaplanner/examples/rocktour/persistence/RockTourXslxFileIO.java:332-354 | writing a bus and reading it back gives the same bus |
| `TourCodec.TourGroups` | optaplanner-examples/src/main/java/org/optaplanner/examples/rocktour/persistence/RockTourXslxFileIO.java:429-435 | the writer's groups are well formed |
| `TourCodec.ReadTour` | optaplanner-examples/src/main/java/org/optaplanner/examples/rocktour/persistence/RockTourXslxFileIO.java:73-80 | a read tour has a valid name, shows numbered 0, 1, 2, ... without dates, and driving times for exactly the pairs of its locations |
| `TourCodec.WriteTour` | optaplanner-examples/src/main/java/org/optaplanner/examples/rocktour/persistence/RockTourXslxFileIO.java:304-312 | the writer emits five sheets, the fourth being the driving times |
| `TourCodec.TourSheets` | optaplanner-examples/src/main/java/org/optaplanner/examples/rocktour/persistence/RockTourXslxFileIO.java:305-310 | the five sheets come in the writer's order |
| `TourCodec.WriteTourIff` | optaplanner-examples/src/main/java/org/optaplanner/examples/rocktour/persistence/RockTourXslxFileIO.java:309 | writing a tour succeeds exactly when locations at the same coordinates have the same driving times |
| `TourCodec.FindDistinctSheet` | optaplanner-examples/src/main/java/org/optaplanner/examples/rocktour/persistence/RockTourXslxFileIO.java:245 | in a workbook whose sheet names differ even ignoring case, `nextSheet` finds each sheet by its name |
| `TourCodec.LocationsWithoutDates` | optaplanner-examples/src/main/java/org/optaplanner/examples/rocktour/persistence/RockTourXslxFileIO.java:220-222 | the solver's date assignment does not change the tour's locations |
| `TourCodec.SheetsFound` | optaplanner-examples/src/main/java/org/optaplanner/examples/rocktour/persistence/RockTourXslxFileIO.java:75-78 | each sheet the reader opens is the one the writer put under that name |
| `TourCodec.ReadTourFromParts` | optaplanner-examples/src/main/java/org/optaplanner/examples/rocktour/persistence/RockTourXslxFileIO.java:74-79 | the reader assembles the tour from its four parts |
| `TourCodec.TourRoundTrip` | optaplanner-examples/src/main/java/org/optaplanner/examples/rocktour/persistence/RockTourXslxFileIO.java:72-80 | a well-formed tour written and read back is the same tour, without the solver's date assignment |

## Left out

- File I/O is left out (lines 56-65 and 286-295). So are the workbook's binary encoding and the exception wrapping; the model starts and ends at the workbook as data.
- The base classes `AbstractXslxSolutionFileIO`, `AbstractXslxReader` and `AbstractXlsxWriter` are not part of this model, so their cursor semantics are assumed:
  - a missing cell reads as an unstyled blank;
  - a blank reads as "", 0 or false;
  - `nextRow()` skips rows whose cells are all blank or empty text;
  - `nextRow(false)` does not skip;
  - `nextSheet(name)` and `hasSheet(name)` go through POI's `XSSFWorkbook.getSheet`, which returns the first sheet whose name equals `name` ignoring case.
- `Grid.FindSheet`: `equalsIgnoreCase` is modelled for the letters A to Z only; other characters must match exactly, whereas Java also folds non-ASCII letters.
- `VALID_NAME_PATTERN`, `DAY_FORMATTER`, `MONTH_FORMATTER`, `Double.toString` and `RockLocation.getAirDistanceTo` are parameters of the model (`Collaborators`), not definitions. The round trips assume that parsing a formatted day gives the day back.
- The constraint lines and the parametrization of the Configuration sheet are left out (lines 92-100 and 322-328). They live in the base class.
- Styles, freeze panes, column auto-sizing and `writeSetup` are left out. Fills are modelled on text and blank cells, the cells `extractColor` is applied to after `nextStringCell()`; only the unavailable fill has meaning, and the writer's header style is modelled as no fill.
- Merged regions are recorded but not validated, as POI would validate them.
- Floating point is left out: coordinates, durations, revenues and driving times are exact reals. NaN, infinities and rounding of `duration * 2.0` are not modelled.
- `RockLocation.getDrivingTimeTo` is not part of this model. A pair absent from the table is a `MissingDrivingTime` error where the Java code would throw from that method.
- Locations are compared by value, not by Java object identity. The reader creates one object per row, so two rows with equal city and coordinates are one location here.
- `Text.StringLessTotal`: city names are ordered by character code. This matches `String.compareTo` on UTF-16 code units only for characters of the Basic Multilingual Plane.
- Year overflow of `LocalDate` (beyond year 999,999,999) is not modelled; years are unbounded.
- The identity fields (`setId`) of the bus and the parametrization are left out. The ids of the shows are modelled.
- `BusCodec.ReadBusSheet`: the contract describes a successful read only. The failures come from the typed reads, each stated by its own member.
