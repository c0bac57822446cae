/** The workbook as plain data, and the cursor primitives the codec reads
    it with. A row is a sequence of cells; a cell past the end of its row
    reads as an unstyled blank, and a row past the end of its sheet as an
    empty row. */
module Grid {
  import opened Results
  import opened Failures
  import opened Text

  /** Background fill of a text or blank cell; only `UnavailableFill` carries meaning. */
  datatype Fill = NoFill | UnavailableFill | OtherFill(rgb: nat)

  datatype Cell = Text(text: string, fill: Fill) | Number(number: real) | Bool(flag: bool) | Blank(fill: Fill)

  /** `extractColor(cell, UNAVAILABLE_COLOR)` finds the unavailable colour: a text or blank
      cell carrying that fill. */
  predicate HasUnavailableFill(c: Cell) {
    (c.Text? || c.Blank?) && c.fill == UnavailableFill
  }

  type Row = seq<Cell>

  /** A merged region on one row, from `firstCol` to `lastCol` inclusive. */
  datatype Merge = Merge(row: nat, firstCol: int, lastCol: int)

  datatype Sheet = Sheet(name: string, rows: seq<Row>, merges: seq<Merge>)

  type Workbook = seq<Sheet>

  function CellAt(row: Row, col: nat): Cell {
    if col < |row| then row[col] else Blank(NoFill)
  }

  function RowAt(rows: seq<Row>, i: nat): Row {
    if i < |rows| then rows[i] else []
  }

  // ---------------------------------------------------------------------
  // Typed reads: a blank reads as the type's default value.

  /** The string a cell holds when read as text, or None for a numeric or boolean cell. */
  function StringValue(c: Cell): Option<string> {
    match c
    case Text(s, _) => Some(s)
    case Blank(_) => Some("")
    case _ => None
  }

  /** The number a cell holds when read numerically, or None for a text or boolean cell. */
  function NumericValue(c: Cell): Option<real> {
    match c
    case Number(x) => Some(x)
    case Blank(_) => Some(0.0)
    case _ => None
  }

  function ReadString(row: Row, at: Pos): (r: Result<string, Error>)
    ensures r.Success? <==> StringValue(CellAt(row, at.col)).Some?
    ensures r.Success? ==> Some(r.value) == StringValue(CellAt(row, at.col))
    ensures r.Failure? ==> r.error == WrongCellType(at, StringCell)
  {
    match StringValue(CellAt(row, at.col))
    case Some(s) => Success(s)
    case None => Failure(WrongCellType(at, StringCell))
  }

  function ReadNumber(row: Row, at: Pos): (r: Result<real, Error>)
    ensures r.Success? <==> CellAt(row, at.col).Number? || CellAt(row, at.col).Blank?
    ensures CellAt(row, at.col).Number? ==> r == Success(CellAt(row, at.col).number)
    ensures CellAt(row, at.col).Blank? ==> r == Success(0.0)
    ensures r.Failure? ==> r.error == WrongCellType(at, NumericCell)
  {
    match CellAt(row, at.col)
    case Number(x) => Success(x)
    case Blank(_) => Success(0.0)
    case _ => Failure(WrongCellType(at, NumericCell))
  }

  function ReadBoolean(row: Row, at: Pos): (r: Result<bool, Error>)
    ensures r.Success? <==> CellAt(row, at.col).Bool? || CellAt(row, at.col).Blank?
    ensures CellAt(row, at.col).Bool? ==> r == Success(CellAt(row, at.col).flag)
    ensures CellAt(row, at.col).Blank? ==> r == Success(false)
    ensures r.Failure? ==> r.error == WrongCellType(at, BooleanCell)
  {
    match CellAt(row, at.col)
    case Bool(b) => Success(b)
    case Blank(_) => Success(false)
    case _ => Failure(WrongCellType(at, BooleanCell))
  }

  // ---------------------------------------------------------------------
  // Header assertions.

  /** `readHeaderCell(expected)`: the cell must read as exactly `expected`. */
  function ExpectHeader(row: Row, at: Pos, expected: string): (r: Result<(), Error>)
    ensures r.Success? <==> StringValue(CellAt(row, at.col)) == Some(expected)
  {
    var found :- ReadString(row, at);
    if found == expected then Success(()) else Failure(HeaderMismatch(at, expected, found))
  }

  /** Consecutive header assertions, one label per column from `col` on. */
  function ExpectHeaders(row: Row, sheet: string, r: nat, col: nat, labels: seq<string>): (res: Result<(), Error>)
    ensures res.Success? <==>
      forall j :: 0 <= j < |labels| ==> StringValue(CellAt(row, col + j)) == Some(labels[j])
    decreases |labels|
  {
    if |labels| == 0 then Success(())
    else
      var _ :- ExpectHeader(row, Pos(sheet, r, col), labels[0]);
      var rest := ExpectHeaders(row, sheet, r, col + 1, labels[1..]);
      assert rest.Success? ==> forall j :: 0 <= j < |labels| ==> StringValue(CellAt(row, col + j)) == Some(labels[j]) by {
        if rest.Success? {
          forall j | 1 <= j < |labels|
            ensures StringValue(CellAt(row, col + j)) == Some(labels[j])
          {
            assert labels[j] == labels[1..][j - 1];
          }
        }
      }
      rest
  }

  /** Header cells as the writer's `nextHeaderCell` produces them. */
  function HeaderCells(labels: seq<string>): (cells: Row)
    ensures |cells| == |labels|
    ensures forall j :: 0 <= j < |labels| ==> StringValue(cells[j]) == Some(labels[j])
  {
    seq(|labels|, j requires 0 <= j < |labels| => Text(labels[j], NoFill))
  }

  /** A row of written header cells passes the header check for the same labels. */
  lemma HeaderCellsPass(labels: seq<string>, sheet: string, r: nat)
    ensures ExpectHeaders(HeaderCells(labels), sheet, r, 0, labels).Success?
  {
    var cells := HeaderCells(labels);
    forall j | 0 <= j < |labels|
      ensures StringValue(CellAt(cells, j)) == Some(labels[j])
    {
    }
  }

  // ---------------------------------------------------------------------
  // Row iteration: `nextRow()` skips rows with nothing in them.

  predicate IsEmptyRow(row: Row) {
    forall j :: 0 <= j < |row| ==> row[j].Blank? || (row[j].Text? && row[j].text == "")
  }

  /** The indices, in order, of the non-empty rows at or after `from`. */
  function NonEmptyRowsFrom(rows: seq<Row>, from: nat): (idx: seq<nat>)
    ensures forall k :: 0 <= k < |idx| ==> from <= idx[k] < |rows| && !IsEmptyRow(rows[idx[k]])
    ensures forall k, l :: 0 <= k < l < |idx| ==> idx[k] < idx[l]
    ensures forall i :: from <= i < |rows| && !IsEmptyRow(rows[i]) ==> i in idx
    decreases |rows| - from
  {
    if from >= |rows| then []
    else if IsEmptyRow(rows[from]) then NonEmptyRowsFrom(rows, from + 1)
    else [from] + NonEmptyRowsFrom(rows, from + 1)
  }

  /** When no row from `from` on is empty, the walk visits every one of them. */
  lemma {:induction false} NoEmptyRowsSkipped(rows: seq<Row>, from: nat)
    requires from <= |rows|
    requires forall i :: from <= i < |rows| ==> !IsEmptyRow(rows[i])
    ensures |NonEmptyRowsFrom(rows, from)| == |rows| - from
    ensures forall k :: 0 <= k < |rows| - from ==> NonEmptyRowsFrom(rows, from)[k] == from + k
    decreases |rows| - from
  {
    if from < |rows| {
      assert !IsEmptyRow(rows[from]);
      var rest := NonEmptyRowsFrom(rows, from + 1);
      assert NonEmptyRowsFrom(rows, from) == [from] + rest;
      NoEmptyRowsSkipped(rows, from + 1);
    }
  }

  /** The row the `k`-th `nextRow()` call lands on; past the last row, an empty one. */
  function NthRow(rows: seq<Row>, idx: seq<nat>, k: nat): (line: (nat, Row))
    requires forall m :: 0 <= m < |idx| ==> idx[m] < |rows|
  {
    if k < |idx| then (idx[k], rows[idx[k]]) else (|rows| + k - |idx|, [])
  }

  // ---------------------------------------------------------------------
  // Sheets.

  /** `getSheet(name) != null`: some sheet's name matches, ignoring case. */
  predicate HasSheet(wb: Workbook, name: string) {
    exists i :: 0 <= i < |wb| && SameIgnoringCase(wb[i].name, name)
  }

  /** `nextSheet(name)`: the first sheet whose name matches, ignoring case, as POI's
      `getSheet` finds it; no match is a missing-sheet error. */
  function FindSheet(wb: Workbook, name: string): (r: Result<Sheet, Error>)
    ensures r.Success? <==> HasSheet(wb, name)
    ensures r.Success? ==> exists i :: && 0 <= i < |wb| && wb[i] == r.value
                                       && SameIgnoringCase(wb[i].name, name)
                                       && (forall j :: 0 <= j < i ==> !SameIgnoringCase(wb[j].name, name))
    ensures r.Failure? ==> r.error == MissingSheet(name)
  {
    if |wb| == 0 then Failure(MissingSheet(name))
    else if SameIgnoringCase(wb[0].name, name) then
      assert wb[0] == wb[0];
      Success(wb[0])
    else
      var r := FindSheet(wb[1..], name);
      assert HasSheet(wb, name) ==> HasSheet(wb[1..], name) by {
        if HasSheet(wb, name) {
          var i :| 0 <= i < |wb| && SameIgnoringCase(wb[i].name, name);
          assert wb[1..][i - 1] == wb[i];
        }
      }
      assert r.Success? ==> exists i :: && 0 <= i < |wb| && wb[i] == r.value
                                        && SameIgnoringCase(wb[i].name, name)
                                        && (forall j :: 0 <= j < i ==> !SameIgnoringCase(wb[j].name, name)) by {
        if r.Success? {
          var i :| && 0 <= i < |wb[1..]| && wb[1..][i] == r.value
                   && SameIgnoringCase(wb[1..][i].name, name)
                   && (forall j :: 0 <= j < i ==> !SameIgnoringCase(wb[1..][j].name, name));
          assert wb[i + 1] == wb[1..][i];
          forall j | 0 <= j < i + 1
            ensures !SameIgnoringCase(wb[j].name, name)
          {
            if j > 0 {
              assert wb[j] == wb[1..][j - 1];
            }
          }
        }
      }
      r
  }

  /** Names that differ only in letter case find the same sheet, or both find none. */
  lemma {:induction false} FindSheetIgnoresCase(wb: Workbook, a: string, b: string)
    requires SameIgnoringCase(a, b)
    ensures FindSheet(wb, a).Success? <==> FindSheet(wb, b).Success?
    ensures FindSheet(wb, a).Success? ==> FindSheet(wb, a).value == FindSheet(wb, b).value
    decreases |wb|
  {
    if |wb| > 0 {
      SameIgnoringCaseEquivalence(wb[0].name, a, b);
      SameIgnoringCaseEquivalence(wb[0].name, b, a);
      SameIgnoringCaseEquivalence(a, b, a);
      FindSheetIgnoresCase(wb[1..], a, b);
    }
  }
}
