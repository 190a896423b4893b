/**
 * The spreadsheet as the extractor sees it: a sparse grid of cell values,
 * addressed by (row, column) with 1-based indices as the workbook library
 * uses them, plus the small value types the rest of the model shares.
 */
module Cells {

  datatype Option<+T> = None | Some(value: T)

  datatype Result<+T, +E> = Ok(value: T) | Err(error: E)

  /** Largest proleptic Gregorian ordinal a date can have (9999-12-31). */
  const MaxOrdinal: int := 3652059

  /**
   * A calendar date as its proleptic Gregorian ordinal: 0001-01-01 is day 1,
   * as Python's `date.toordinal()` numbers dates.
   */
  type Ordinal = d: int | 1 <= d <= MaxOrdinal witness 1

  /**
   * A floating-point value as `float()` can produce it. Finite values are
   * kept exact (IEEE rounding is not modelled).
   */
  datatype Float = Finite(value: real) | Infinity(negative: bool) | NaN

  /**
   * A cell value as the workbook library returns it with cached formula
   * results: nothing, a number, a boolean, text, a date-time (its date and
   * the time of day in microseconds), or some other value (a time, a
   * duration) that `float()` rejects with a TypeError.
   */
  datatype Cell =
    | Empty
    | Number(number: real)
    | Boolean(flag: bool)
    | Text(text: string)
    | DateTime(day: Ordinal, microsecond: nat)
    | OtherValue

  /** Only the cells that hold something are present; the rest are empty. */
  type Sheet = map<(int, int), Cell>

  /** The value of the cell at `row`, `column` (the empty value if unset). */
  function CellAt(sheet: Sheet, row: int, column: int): Cell
  {
    if (row, column) in sheet then sheet[(row, column)] else Empty
  }
}
