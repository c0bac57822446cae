/** Every way reading or writing a tour can fail. Positions are 0-based
    (sheet, row, column) of the cell the cursor stood on. */
module Failures {
  import opened Domain

  datatype Pos = Pos(sheet: string, row: nat, col: nat)

  /** The kind of value a cell was expected to hold. */
  datatype CellKind = StringCell | NumericCell | BooleanCell

  datatype Error =
    | MissingSheet(name: string)
    | WrongCellType(at: Pos, kind: CellKind)
    | HeaderMismatch(at: Pos, expected: string, found: string)
    | InvalidTourName(at: Pos, name: string)
    | UnparsableDate(at: Pos, text: string)
    | DurationNotHalfDayMultiple(at: Pos, duration: real)
    | DurationTooShort(at: Pos, duration: real)
    | RevenueNotInteger(at: Pos, revenue: real)
    | AvailabilityCellNotEmpty(at: Pos, text: string)
    | NoAvailableDate(at: Pos, venue: string)
    | DrivingTimeNotInteger(at: Pos, cellValue: real)
    | MissingDrivingTime(from: Location, to: Location)
    | InconsistentDrivingTime(
        representativeFrom: Location, representativeTo: Location, representativeSeconds: int,
        from: Location, to: Location, seconds: int)
}
