/** The variable-width part of the Shows sheet header: one column per date
    of the bus range [start, end), each carrying its month label (on the
    first date and on every first of a month) with the width of that
    label's merged region, and its day-of-month label. Reader and writer
    both derive their headers from `DateColumns`. */
module DateSchema {
  import opened Results
  import opened Calendar
  import opened Text
  import opened Grid

  datatype DateColumn = DateColumn(date: Date, opensMonth: bool, monthSpan: int)

  /** Days from `d` to the first of the next month, cut off at `end`. */
  function MonthSpan(d: Date, end: Date): int {
    var nextMonth := FirstDayOfNextMonth(d);
    DaysBetween(d, if Before(end, nextMonth) then end else nextMonth)
  }

  function DateColumns(start: Date, end: Date): (cols: seq<DateColumn>)
    ensures |cols| == |DateRange(start, end)|
    ensures forall i :: 0 <= i < |cols| ==> cols[i].date == DateRange(start, end)[i]
  {
    var dates := DateRange(start, end);
    seq(|dates|, i requires 0 <= i < |dates| =>
      var d := dates[i];
      var opens := d == start || d.day == 1;
      DateColumn(d, opens, if opens then MonthSpan(d, end) else 0))
  }

  /** The dates the columns stand for, in column order. */
  function ColumnDates(cols: seq<DateColumn>): (dates: seq<Date>)
    ensures |dates| == |cols|
    ensures forall i :: 0 <= i < |cols| ==> dates[i] == cols[i].date
  {
    seq(|cols|, i requires 0 <= i < |cols| => cols[i].date)
  }

  /** Labels the month header row must carry over the date columns. */
  function MonthLabels(cols: seq<DateColumn>, formatMonth: Date -> string): (labels: seq<string>)
    ensures |labels| == |cols|
  {
    seq(|cols|, i requires 0 <= i < |cols| => if cols[i].opensMonth then formatMonth(cols[i].date) else "")
  }

  /** Labels the day header row must carry over the date columns. */
  function DayLabels(cols: seq<DateColumn>): (labels: seq<string>)
    ensures |labels| == |cols|
  {
    seq(|cols|, i requires 0 <= i < |cols| => DecimalText(cols[i].date.day))
  }

  /** The month header cells the writer emits: a label where a month opens, an unstyled blank elsewhere. */
  function MonthCells(cols: seq<DateColumn>, formatMonth: Date -> string): (cells: Row)
    ensures |cells| == |cols|
    ensures forall i :: 0 <= i < |cols| ==> (cells[i].Blank? <==> !cols[i].opensMonth)
    ensures forall i :: 0 <= i < |cols| ==> StringValue(cells[i]) == Some(MonthLabels(cols, formatMonth)[i])
  {
    seq(|cols|, i requires 0 <= i < |cols| =>
      if cols[i].opensMonth then Text(formatMonth(cols[i].date), NoFill) else Blank(NoFill))
  }

  /** The merged regions of the month header row, one per month label, left to right;
      the date columns start at sheet column `firstCol`. */
  function MonthMerges(cols: seq<DateColumn>, row: nat, firstCol: nat, i: nat): (merges: seq<Merge>)
    decreases |cols| - i
  {
    if i >= |cols| then []
    else
      var here := if cols[i].opensMonth
        then [Merge(row, firstCol + i, firstCol + i + cols[i].monthSpan - 1)]
        else [];
      here + MonthMerges(cols, row, firstCol, i + 1)
  }

  // ---------------------------------------------------------------------
  // Properties of the date columns.

  /** One column per date of [start, end), and the banner spanning them is exactly as wide. */
  lemma OneColumnPerDate(start: Date, end: Date, d: Date)
    ensures |DateColumns(start, end)| == if Before(start, end) then DaysBetween(start, end) else 0
    ensures d in ColumnDates(DateColumns(start, end)) <==> !Before(d, start) && Before(d, end)
  {
    var cols := DateColumns(start, end);
    DateRangeShape(start, end);
    DateRangeMembers(start, end, d);
    assert ColumnDates(cols) == DateRange(start, end);
  }

  lemma ColumnDatesIncreasing(start: Date, end: Date, i: int, j: int)
    requires 0 <= i < j < |DateColumns(start, end)|
    ensures Before(DateColumns(start, end)[i].date, DateColumns(start, end)[j].date)
  {
    DateRangeIncreasing(start, end, i, j);
  }

  /** A month label sits on the first column and on every first of a month, nowhere else. */
  lemma MonthLabelPlacement(start: Date, end: Date, i: int)
    requires 0 <= i < |DateColumns(start, end)|
    ensures DateColumns(start, end)[i].opensMonth <==> i == 0 || DateColumns(start, end)[i].date.day == 1
  {
    var cols := DateColumns(start, end);
    DateRangeShape(start, end);
    assert cols[0].date == start;
    if i > 0 {
      ColumnDatesIncreasing(start, end, 0, i);
    }
  }

  /** The k-th column after column i stands for the date k days later. */
  lemma ColumnAfter(start: Date, end: Date, i: nat, k: nat)
    requires i + k < |DateColumns(start, end)|
    ensures DateColumns(start, end)[i + k].date == PlusDays(DateColumns(start, end)[i].date, k)
  {
    DateRangeShape(start, end);
    PlusDaysAdd(start, i, k);
  }

  /** Days from `d` to the first of the next month. */
  function DaysToNextMonth(d: Date): int {
    DaysInMonth(d.year, d.month) - d.day + 1
  }

  /** The span of a label at `d` is the distance to `end` or to the next month, whichever is less. */
  lemma MonthSpanIsNearer(d: Date, end: Date)
    ensures MonthSpan(d, end) == if DaysBetween(d, end) < DaysToNextMonth(d) then DaysBetween(d, end) else DaysToNextMonth(d)
  {
    var nextMonth := FirstDayOfNextMonth(d);
    PlusDaysReachesNextMonth(d, DaysToNextMonth(d));
    PlusDaysIsLater(d, DaysToNextMonth(d));
    BeforeIsEarlier(end, nextMonth);
  }

  /** Column `i` stands `i` days after the start, inside the range. */
  lemma ColumnPosition(start: Date, end: Date, i: nat)
    requires i < |DateColumns(start, end)|
    ensures var cols := DateColumns(start, end);
      && DayNumber(cols[i].date) == DayNumber(start) + i
      && DaysBetween(cols[i].date, end) == |cols| - i
  {
    var cols := DateColumns(start, end);
    DateRangeShape(start, end);
    BeforeIsEarlier(start, end);
    PlusDaysIsLater(start, i);
  }

  /** A month label's span is the rest of its month, or the rest of the range if that is shorter. */
  lemma MonthSpanValue(start: Date, end: Date, i: nat)
    requires i < |DateColumns(start, end)| && DateColumns(start, end)[i].opensMonth
    ensures var cols := DateColumns(start, end); var toNext := DaysToNextMonth(cols[i].date);
      cols[i].monthSpan == if |cols| - i < toNext then |cols| - i else toNext
  {
    var cols := DateColumns(start, end);
    var d := cols[i].date;
    assert cols[i].monthSpan == MonthSpan(d, end);
    ColumnPosition(start, end, i);
    MonthSpanIsNearer(d, end);
  }

  lemma InsideMonthSpan(start: Date, end: Date, i: nat, j: nat)
    requires i < j < |DateColumns(start, end)|
    requires j - i < DaysToNextMonth(DateColumns(start, end)[i].date)
    ensures !DateColumns(start, end)[j].opensMonth
  {
    var d := DateColumns(start, end)[i].date;
    ColumnAfter(start, end, i, j - i);
    PlusDaysWithinMonth(d, j - i);
    MonthLabelPlacement(start, end, j);
  }

  /** A month label's span reaches the next month label, or the last column, and covers no other label. */
  lemma MonthSpanReachesNextLabel(start: Date, end: Date, i: nat)
    requires i < |DateColumns(start, end)| && DateColumns(start, end)[i].opensMonth
    ensures var cols := DateColumns(start, end); var span := cols[i].monthSpan;
      && 1 <= span
      && i + span <= |cols|
      && (forall j :: i < j < i + span ==> !cols[j].opensMonth)
      && (i + span == |cols| || cols[i + span].opensMonth)
  {
    var cols := DateColumns(start, end);
    var d := cols[i].date;
    MonthSpanValue(start, end, i);
    forall j | i < j < i + cols[i].monthSpan
      ensures !cols[j].opensMonth
    {
      InsideMonthSpan(start, end, i, j);
    }
    if i + cols[i].monthSpan < |cols| {
      ColumnAfter(start, end, i, DaysToNextMonth(d));
      PlusDaysReachesNextMonth(d, DaysToNextMonth(d));
      MonthLabelPlacement(start, end, i + DaysToNextMonth(d));
    }
  }

  /** A month merged region is made for exactly the columns from `i` on that open a month,
      on the month row and across that month's span. */
  lemma {:induction false} MonthMergesMembers(cols: seq<DateColumn>, row: nat, firstCol: nat, i: nat, m: Merge)
    ensures m in MonthMerges(cols, row, firstCol, i) <==>
      exists j :: i <= j < |cols| && cols[j].opensMonth
        && m == Merge(row, firstCol + j, firstCol + j + cols[j].monthSpan - 1)
    decreases |cols| - i
  {
    if i < |cols| {
      var here := Merge(row, firstCol + i, firstCol + i + cols[i].monthSpan - 1);
      var rest := MonthMerges(cols, row, firstCol, i + 1);
      MonthMergesMembers(cols, row, firstCol, i + 1, m);
      if cols[i].opensMonth {
        assert MonthMerges(cols, row, firstCol, i) == [here] + rest;
      } else {
        assert MonthMerges(cols, row, firstCol, i) == rest;
      }
    }
  }

  /** Where no label opens, the merges left to right are those of the next column. */
  lemma {:induction false} MonthMergesSkip(cols: seq<DateColumn>, row: nat, firstCol: nat, i: nat, j: nat)
    requires i <= j <= |cols|
    requires forall k :: i <= k < j ==> !cols[k].opensMonth
    ensures MonthMerges(cols, row, firstCol, i) == MonthMerges(cols, row, firstCol, j)
    decreases j - i
  {
    if i < j {
      MonthMergesSkip(cols, row, firstCol, i + 1, j);
    }
  }

  /** Month merged regions tile the date columns from column `i` on: each is non-empty,
      each starts right after the previous one ends, and the last ends on the last column. */
  predicate Tiles(merges: seq<Merge>, first: int, last: int) {
    && |merges| > 0
    && merges[0].firstCol == first
    && (forall k :: 0 <= k < |merges| ==> merges[k].firstCol <= merges[k].lastCol)
    && (forall k :: 0 <= k < |merges| - 1 ==> merges[k + 1].firstCol == merges[k].lastCol + 1)
    && merges[|merges| - 1].lastCol == last
  }

  lemma {:induction false} MonthMergesTileFrom(start: Date, end: Date, row: nat, firstCol: nat, i: nat)
    requires i < |DateColumns(start, end)| && DateColumns(start, end)[i].opensMonth
    ensures Tiles(MonthMerges(DateColumns(start, end), row, firstCol, i),
                  firstCol + i, firstCol + |DateColumns(start, end)| - 1)
    decreases |DateColumns(start, end)| - i
  {
    var cols := DateColumns(start, end);
    var span := cols[i].monthSpan;
    MonthSpanReachesNextLabel(start, end, i);
    MonthMergesSkip(cols, row, firstCol, i + 1, i + span);
    var m := MonthMerges(cols, row, firstCol, i);
    var here := Merge(row, firstCol + i, firstCol + i + span - 1);
    assert m == [here] + MonthMerges(cols, row, firstCol, i + span);
    if i + span < |cols| {
      MonthMergesTileFrom(start, end, row, firstCol, i + span);
    }
  }

  /** The month merged regions of a non-empty range tile its date columns exactly. */
  lemma MonthMergesTile(start: Date, end: Date, row: nat, firstCol: nat)
    requires Before(start, end)
    ensures Tiles(MonthMerges(DateColumns(start, end), row, firstCol, 0),
                  firstCol, firstCol + DaysBetween(start, end) - 1)
  {
    OneColumnPerDate(start, end, start);
    MonthLabelPlacement(start, end, 0);
    MonthMergesTileFrom(start, end, row, firstCol, 0);
  }
}
