# TDEE spreadsheet extraction, modelled in Dafny

`extract_tdee.py` reads the `TDEE` sheet of a weekly tracking workbook and turns it into the import document of the TDEE tracker app. The sheet is organised by week:

- Each week has a **weight row**. Column 2 holds the week's closing date as a date-time, and column 3 holds the tag `Weight`.
- The week's seven daily weights are in columns 4 to 10 of the weight row.
- The row just above holds the seven daily calorie values in the same columns.

This project models the body of `extract()`, from the empty entries dictionary to the assembled snapshot. It also proves what that code computes.

The model has six modules:

- `Cells` (`cells.dfy`): the sheet, a sparse map from (row, column) to a cell value. It also holds the shared value types:
  - `Option` and `Result`.
  - Dates as proleptic Gregorian day numbers, the numbering of `date.toordinal()`.
  - `Float`: finite, infinite or NaN.
- `Normalizer` (`normalizer.dfy`): `safe_float`. Text is parsed by the syntax that Python's `float()` accepts:
  - White space at either end: tab to carriage return, the space, and the non-ASCII white space of `str.isspace`. The ASCII separators U+001C to U+001F are not stripped, so text that contains them is rejected.
  - An optional sign.
  - Digit parts with `_` grouping, an optional point and an optional exponent.
  - `inf`, `infinity` and `nan` in any letter case.

  Rendering functions for integers and fixed-point text are the parser's partner; the round-trip lemmas connect the two.
- `Dates` (`dates.dfy`): slot `i` of a week stands for the anchor date minus `6 - i` days.
- `Scan` (`scan.dfy`): the row scan, described two ways.
  - `ScanFrom` and `SlotsFrom` follow the two loops step by step.
  - `Merged` and `LatestRow` state the result directly: for each day, the entry written by the last weight row that has a value on it.
  - The lemmas prove that the two agree.
- `Export` (`export.dfy`): sorting the dictionary by date and building the snapshot.
- `Extractor` (`extract.dfy`): the method `Extract`. It runs the two loops over a mutable map, as the source does. It is proved against `Merged`, and it fails exactly when the source would raise. The module ends with a worked example: one week ending on Saturday 2025-12-20.

Where the comments and the code of `extract_tdee.py` disagree, the model follows the code:

- The header docstring says column D is Monday and J is Sunday (line 7). The comments at lines 47 and 63-67, and the arithmetic at lines 68-69, make column D the Sunday six days before the anchor, and column J the anchor itself. The model follows the arithmetic.
- The week's date is read from the weight row only. No anchor carries over from an earlier row.
- A later row's entry for a day replaces the earlier entry whole (line 88). Null fields replace non-null ones too. There is no field-by-field merge.

Two further facts about the code, both modelled:

- Subtracting days below 0001-01-01 raises `OverflowError` at line 69, and nothing catches it. A weight row whose date is one of the first six days of year 1 therefore aborts the whole run with no output. The model returns `Err(DateOutOfRange)` in that case.
- The calorie row is read as `row - 1` even for the first scanned row, 12, so its calories come from row 11.

## Model

| member | source | states |
|---|---|---|
| Normalizer.SafeFloat | extract_tdee.py:75-81 | The result is null exactly for an absent cell, a date-time or other non-numeric value, or text that `float()` rejects. A number or boolean gives its value (a boolean gives 1.0 or 0.0). Text gives what `float()` returns for it. No input fails. |
| Normalizer.ParseIntRoundTrip | extract_tdee.py:79 | The decimal text of any integer, with a leading `-` when negative, converts back to that integer. |
| Normalizer.ParseFixedPointRoundTrip | extract_tdee.py:79 | Fixed-point text `w.f` converts to `w` plus `f` divided by ten to the number of digits of `f`. |
| Normalizer.ParseFloat | extract_tdee.py:79 | `float(val)` on text: the value of the stripped literal, or null where `float()` raises ValueError. No ensures of its own; its meaning is given by the round-trip, padding and no-digit lemmas in the rows around it. |
| Normalizer.ParseIgnoresPadding | extract_tdee.py:79 | One white-space character that `float()` strips, added before or after the text, does not change what it converts to. |
| Normalizer.SeparatorIsNotPadding | extract_tdee.py:79-81 | A file separator (U+001C) before `5` is not stripped, so the text is rejected, while `5` alone converts to 5.0. |
| Normalizer.NoDigitNeverFinite | extract_tdee.py:78-81 | Text without a single digit converts to null, an infinity or NaN, and never to a finite number. |
| Dates.SlotDate | extract_tdee.py:68-69 | The date of slot `i`: the anchor moved back `6 - i` days, or the error the subtraction raises below day 1. No ensures of its own; its meaning is given by `Dates.SlotDateMeaning` and `Dates.WeekOfAnchor`. |
| Dates.SlotDateMeaning | extract_tdee.py:66-69 | Slot `i` gives the anchor minus `6 - i` days. It fails exactly when that date is before day 1. Slot 6 is the anchor itself and slot 0 is six days earlier. |
| Dates.WeekOfAnchor | extract_tdee.py:66-70 | For an anchor of day 7 or later, all seven slot dates exist. They increase strictly with the slot. They are exactly the seven days that end on the anchor. |
| Dates.SlotOfInverse | extract_tdee.py:66-69 | Every day of the week ending on the anchor is the date of exactly the slot `SlotOf` names. |
| Dates.EarlyAnchorFails | extract_tdee.py:68-69 | An anchor among the first six days already fails at slot 0, which is the `OverflowError` the subtraction raises. |
| Scan.IsWeightRow | extract_tdee.py:50-54 | The row selection: column 2 holds a date-time and column 3 is exactly the text `Weight`. No ensures of its own; `Scan.ApplyRowResult` and `Scan.RowWritesMeaning` state what selection implies. |
| Scan.SlotEntry | extract_tdee.py:83-93 | The record one slot writes: the normalised weight of the row, the normalised calories of the row above, the import note and the timestamp. No ensures of its own; `Scan.EntryFields` and `Scan.LaterRowReplaces` state its use. |
| Scan.SlotsFrom | extract_tdee.py:66-93 | The inner loop from slot `slot` on, as recursion over the slots. No ensures of its own; `Scan.SlotsFromWrites` gives its meaning. |
| Scan.ApplyRow | extract_tdee.py:50-93 | One pass of the row loop: the inner loop for a weight row, nothing for any other row. No ensures of its own; `Scan.ApplyRowResult` gives its meaning. |
| Scan.ScanFrom | extract_tdee.py:49-93 | The row loop from row `row` up to row 99, as recursion over the rows. No ensures of its own; `Scan.ScanResult` gives its meaning. |
| Scan.SlotsFromWrites | extract_tdee.py:66-93 | The inner loop over a weight row with a valid anchor adds to the dictionary exactly the row's writes. Those are the entries for the days that have a weight or a calorie value. |
| Scan.ApplyRowResult | extract_tdee.py:49-93 | One pass of the row loop fails exactly on a weight row with an early anchor. Any other weight row adds its writes. A row that is not a weight row, because its column 2 is not a date-time or its tag is not `Weight`, changes nothing. |
| Scan.ScanResult | extract_tdee.py:41-93 | The whole scan over rows 12 to 99 fails exactly when one of those weight rows has an early anchor. Otherwise it yields the merged writes of rows 12 to 99, a later row's entry replacing an earlier one. |
| Scan.RowWritesMeaning | extract_tdee.py:54-61 | A row writes an entry for a day exactly when it is a weight row, the day is in its week, and the slot has a weight or a calorie value. The entry is built from that slot. |
| Scan.LatestRow | extract_tdee.py:49 | The result, when there is one, is a row of the range that writes the day, and no later row in the range writes it. No result means no row of the range writes the day. |
| Scan.MergedIsLatest | extract_tdee.py:49 | The merged dictionary holds a day exactly when some row of the range writes it. Its entry is the one written by the last such row. |
| Scan.EntryIffData | extract_tdee.py:86-87 | A day has an entry if and only if some weight row of rows 12 to 99 has a weight or a calorie value on it. |
| Scan.EntryFields | extract_tdee.py:83-93 | Each entry's weight is the normalised cell of the last writing weight row, in its day's column. Its calories are the normalised cell in the row above, same column. Its note is `Imported from Excel`. |
| Scan.LaterRowReplaces | extract_tdee.py:88-93 | When two weight rows write the same day, the entry is exactly the later row's, null fields included. Nothing of the earlier entry survives. |
| Scan.KeysWithinAnchorWeeks | extract_tdee.py:54-70 | Every key lies in the seven days that end on the anchor of some weight row of rows 12 to 99. |
| Scan.ApplyRowIdempotent | extract_tdee.py:88 | Processing the same row a second time leaves the dictionary as one pass left it. |
| Export.DictOf | extract_tdee.py:96 | `dict(items)`: a later item replaces an earlier one with the same key. No ensures of its own; `Export.DictOfDistinct` and `Export.SortedItemsRoundTrip` give its meaning. |
| Export.ItemsFrom | extract_tdee.py:96 | The items dated `d` or later come strictly ascending by date. Each is a key of the dictionary with its value, and every such key appears. |
| Export.SortedItems | extract_tdee.py:96 | The sorted items come strictly ascending by date, and they are exactly the key and value pairs of the dictionary. |
| Export.DictOfDistinct | extract_tdee.py:96 | Building a dictionary from items with distinct ascending keys keeps every item and adds nothing. |
| Export.SortedItemsRoundTrip | extract_tdee.py:96 | `dict(sorted(entries.items()))` equals `entries`. |
| Export.MakeSnapshot | extract_tdee.py:95-107 | The snapshot has version 1, units `kg` and `cal`, and the export time. Its entries are ascending by date and hold exactly the dictionary's keys and values. |
| Extractor.Extract | extract_tdee.py:41-107 | The loops fail exactly when some weight row of rows 12 to 99 has an anchor before day 7. Otherwise they return the snapshot of the merged writes. |
| Extractor.ExportedEntries | extract_tdee.py:41-107 | The exported document has an entry for a day exactly when some weight row of rows 12 to 99 has a value on it. That entry is the one the last such row writes. |
| Extractor.ExampleWeek | extract_tdee.py:47-93 | A week ending on 2025-12-20 has weights in columns D and J and calories in columns D and E of the row above. It gives exactly three entries. 2025-12-14 combines the weight and the calories of column D. 2025-12-15 has only calories. 2025-12-20 has only a weight. |

## Left out

- Finding the workbook among candidate paths, and the early return when none exists (lines 17-33): file-system I/O.
- Loading the workbook and selecting the `TDEE` sheet (lines 38-39): a foreign library. The sheet is a parameter: a map from (row, column) to the cell value openpyxl returns with cached formula results.
- Writing the JSON file and printing the summary (lines 109-118): output I/O. The snapshot is returned instead.
- The clock (lines 92 and 101). One timestamp parameter, `now`, stands for every reading. The source reads the clock once per entry and once for `exportedAt`, so its timestamps can differ by microseconds.
- Date-keyed text. Keys are day numbers, not `isoformat()` strings. For years 1 to 9999 both are four-digit ISO dates, which sort in day order, so sorting by day number gives the same order as sorting the strings.
- Sorting. `sorted(...)` is modelled by its result: the dictionary's items, visited day by day in ascending order.
- Normalizer.SafeFloat: finite values are exact reals, not IEEE doubles. Rounding, overflow of long text to infinity, and the `OverflowError` of `float()` on an integer beyond the double range are not modelled. An Excel cell cannot hold such an integer.
- Normalizer.ParseFloat: only ASCII digits are accepted. Python's `float()` also accepts other Unicode decimal digits.
- A date-time's time of day is read from the cell but not used, as in the source (`cell_date.date()`). A plain date or time value in column 2 is not a `datetime.datetime`, so it counts as `OtherValue`.
