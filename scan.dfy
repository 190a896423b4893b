/**
 * The row scan of the extractor: over rows 12 to 99 of the sheet, each
 * weight row (a date-time in column 2, the tag `Weight` in column 3) gives
 * seven weights in columns 4 to 10 and, from the row just above, seven
 * calorie values in the same columns. Each of the week's days that has a
 * weight or a calorie value gets a whole new entry, replacing any entry an
 * earlier row wrote for that day.
 *
 * Two descriptions of the result are given here. `ScanFrom` and `SlotsFrom`
 * follow the two loops of the source step by step (the method `Extract`
 * implements them); `Merged` and `LatestRow` say directly what the result
 * is, and the lemmas connect the two.
 */
module Scan {
  import opened Cells
  import opened Normalizer
  import opened Dates

  const FirstRow: int := 12
  const EndRow: int := 100
  const DateColumn: int := 2
  const TagColumn: int := 3
  const FirstValueColumn: int := 4
  const WeightTag: string := "Weight"
  const ImportNote: string := "Imported from Excel"

  /** A generation timestamp in ISO 8601 text; its value comes from the clock. */
  type Timestamp = string

  datatype Entry = Entry(weight: Option<Float>, calories: Option<Float>, notes: string, updatedAt: Timestamp)

  /** The `import_entries` dictionary, keyed by date. */
  type Entries = map<Ordinal, Entry>

  /** A row the scan uses: a date-time in the date column and exactly `Weight` as its tag. */
  predicate IsWeightRow(sheet: Sheet, row: int) {
    CellAt(sheet, row, DateColumn).DateTime? && CellAt(sheet, row, TagColumn) == Text(WeightTag)
  }

  /** The date part of a weight row's date-time: the last day of its week. */
  function Anchor(sheet: Sheet, row: int): Ordinal
    requires IsWeightRow(sheet, row)
  {
    CellAt(sheet, row, DateColumn).day
  }

  /** The normalised weight at `slot` of `row`. */
  function WeightAt(sheet: Sheet, row: int, slot: int): Option<Float> {
    SafeFloat(CellAt(sheet, row, FirstValueColumn + slot))
  }

  /** The normalised calories at `slot` of the row above `row`. */
  function CaloriesAt(sheet: Sheet, row: int, slot: int): Option<Float> {
    SafeFloat(CellAt(sheet, row - 1, FirstValueColumn + slot))
  }

  predicate HasData(sheet: Sheet, row: int, slot: int) {
    WeightAt(sheet, row, slot).Some? || CaloriesAt(sheet, row, slot).Some?
  }

  /** The entry a weight row writes for one slot. */
  function SlotEntry(sheet: Sheet, row: int, slot: int, now: Timestamp): Entry {
    Entry(WeightAt(sheet, row, slot), CaloriesAt(sheet, row, slot), ImportNote, now)
  }

  // ---------------------------------------------------------------------
  // The loops, step by step.

  /** The inner loop from `slot` on, over the week of weight row `row`. */
  function SlotsFrom(sheet: Sheet, now: Timestamp, row: int, acc: Entries, slot: int): Result<Entries, ExtractError>
    requires IsWeightRow(sheet, row) && 0 <= slot <= SlotsPerWeek
    decreases SlotsPerWeek - slot
  {
    if slot == SlotsPerWeek then Ok(acc)
    else
      match SlotDate(Anchor(sheet, row), slot)
      case Err(e) => Err(e)
      case Ok(d) =>
        var next := if HasData(sheet, row, slot) then acc[d := SlotEntry(sheet, row, slot, now)] else acc;
        SlotsFrom(sheet, now, row, next, slot + 1)
  }

  /** One iteration of the row loop. */
  function ApplyRow(sheet: Sheet, now: Timestamp, row: int, acc: Entries): Result<Entries, ExtractError> {
    if IsWeightRow(sheet, row) then SlotsFrom(sheet, now, row, acc, 0) else Ok(acc)
  }

  /** The row loop from `row` on. */
  function ScanFrom(sheet: Sheet, now: Timestamp, acc: Entries, row: int): Result<Entries, ExtractError>
    decreases EndRow - row
  {
    if row >= EndRow then Ok(acc)
    else
      match ApplyRow(sheet, now, row, acc)
      case Err(e) => Err(e)
      case Ok(next) => ScanFrom(sheet, now, next, row + 1)
  }

  // ---------------------------------------------------------------------
  // The result, described directly.

  /** Row `row` writes an entry for day `d`: `d` is in its week and has a value. */
  predicate Contributes(sheet: Sheet, row: int, d: int) {
    && IsWeightRow(sheet, row)
    && InWeek(Anchor(sheet, row), d)
    && HasData(sheet, row, SlotOf(Anchor(sheet, row), d))
  }

  /** What weight row `row` writes from slot `slot` on. */
  function RowWritesFrom(sheet: Sheet, now: Timestamp, row: int, slot: int): Entries
    requires IsWeightRow(sheet, row)
  {
    var anchor := Anchor(sheet, row);
    map d: Ordinal | anchor - (SlotsPerWeek - 1) + slot <= d <= anchor && HasData(sheet, row, SlotOf(anchor, d))
      :: SlotEntry(sheet, row, SlotOf(anchor, d), now)
  }

  /** What row `row` writes: nothing unless it is a weight row. */
  function RowWrites(sheet: Sheet, now: Timestamp, row: int): Entries {
    if IsWeightRow(sheet, row) then RowWritesFrom(sheet, now, row, 0) else map[]
  }

  /** The writes of rows `lo` to `hi - 1`, a later row's entry replacing an earlier one's. */
  function Merged(sheet: Sheet, now: Timestamp, lo: int, hi: int): Entries
    decreases hi - lo
  {
    if lo >= hi then map[] else RowWrites(sheet, now, lo) + Merged(sheet, now, lo + 1, hi)
  }

  /** A weight row among `lo` to `hi - 1` whose anchor is before day 7. */
  ghost predicate HasEarlyAnchor(sheet: Sheet, lo: int, hi: int) {
    exists row :: lo <= row < hi && IsWeightRow(sheet, row) && Anchor(sheet, row) < SlotsPerWeek
  }

  /** The last row among `lo` to `hi - 1` that writes an entry for `d`, if any. */
  function LatestRow(sheet: Sheet, d: int, lo: int, hi: int): (r: Option<int>)
    decreases hi - lo
    ensures r.Some? ==> lo <= r.value < hi && Contributes(sheet, r.value, d)
    ensures r.Some? ==> forall row :: r.value < row < hi ==> !Contributes(sheet, row, d)
    ensures r.None? ==> forall row :: lo <= row < hi ==> !Contributes(sheet, row, d)
  {
    if lo >= hi then None
    else
      match LatestRow(sheet, d, lo + 1, hi)
      case Some(row) => Some(row)
      case None => if Contributes(sheet, lo, d) then Some(lo) else None
  }

  // ---------------------------------------------------------------------
  // The loops compute the direct description.

  /** What a weight row writes from `slot` on, in terms of one slot less. */
  lemma RowWritesStep(sheet: Sheet, now: Timestamp, row: int, slot: int)
    requires IsWeightRow(sheet, row) && 0 <= slot < SlotsPerWeek
    requires Anchor(sheet, row) >= SlotsPerWeek
    ensures var d: Ordinal := Anchor(sheet, row) - (SlotsPerWeek - 1) + slot;
      && d !in RowWritesFrom(sheet, now, row, slot + 1)
      && RowWritesFrom(sheet, now, row, slot)
         == if HasData(sheet, row, slot)
            then RowWritesFrom(sheet, now, row, slot + 1)[d := SlotEntry(sheet, row, slot, now)]
            else RowWritesFrom(sheet, now, row, slot + 1)
  {
  }

  /** The inner loop adds the row's writes to what it started from. */
  lemma {:induction false} SlotsFromWrites(sheet: Sheet, now: Timestamp, row: int, acc: Entries, slot: int)
    requires IsWeightRow(sheet, row) && 0 <= slot <= SlotsPerWeek
    requires Anchor(sheet, row) >= SlotsPerWeek
    ensures SlotsFrom(sheet, now, row, acc, slot) == Ok(acc + RowWritesFrom(sheet, now, row, slot))
    decreases SlotsPerWeek - slot
  {
    var anchor := Anchor(sheet, row);
    if slot == SlotsPerWeek {
      assert RowWritesFrom(sheet, now, row, slot) == map[];
      assert acc + map[] == acc;
    } else {
      var d: Ordinal := anchor - (SlotsPerWeek - 1) + slot;
      assert SlotDate(anchor, slot) == Ok(d);
      var rest := RowWritesFrom(sheet, now, row, slot + 1);
      RowWritesStep(sheet, now, row, slot);
      if HasData(sheet, row, slot) {
        var e := SlotEntry(sheet, row, slot, now);
        SlotsFromWrites(sheet, now, row, acc[d := e], slot + 1);
        assert acc[d := e] + rest == acc + rest[d := e];
      } else {
        SlotsFromWrites(sheet, now, row, acc, slot + 1);
      }
    }
  }

  /** One iteration of the row loop: it fails on an early anchor, and otherwise adds the row's writes. */
  lemma ApplyRowResult(sheet: Sheet, now: Timestamp, row: int, acc: Entries)
    ensures ApplyRow(sheet, now, row, acc)
         == if IsWeightRow(sheet, row) && Anchor(sheet, row) < SlotsPerWeek then Err(DateOutOfRange)
            else Ok(acc + RowWrites(sheet, now, row))
  {
    if IsWeightRow(sheet, row) {
      if Anchor(sheet, row) < SlotsPerWeek {
        EarlyAnchorFails(Anchor(sheet, row));
      } else {
        SlotsFromWrites(sheet, now, row, acc, 0);
      }
    } else {
      assert acc + map[] == acc;
    }
  }

  lemma MapUnionAssociative(a: Entries, b: Entries, c: Entries)
    ensures (a + b) + c == a + (b + c)
  {
  }

  /** Whether rows `row` on hold an early anchor, in terms of row `row` and the rows after it. */
  lemma HasEarlyAnchorStep(sheet: Sheet, row: int)
    requires row < EndRow
    ensures HasEarlyAnchor(sheet, row, EndRow)
        <==> (IsWeightRow(sheet, row) && Anchor(sheet, row) < SlotsPerWeek) || HasEarlyAnchor(sheet, row + 1, EndRow)
  {
    if HasEarlyAnchor(sheet, row, EndRow) && !(IsWeightRow(sheet, row) && Anchor(sheet, row) < SlotsPerWeek) {
      var r :| row <= r < EndRow && IsWeightRow(sheet, r) && Anchor(sheet, r) < SlotsPerWeek;
      assert row + 1 <= r;
    }
  }

  /**
   * The row loop from `row` on fails exactly when a remaining weight row has
   * an anchor before day 7, and otherwise adds the merged writes of the
   * remaining rows to what it started from.
   */
  lemma {:induction false} ScanFromResult(sheet: Sheet, now: Timestamp, acc: Entries, row: int)
    ensures ScanFrom(sheet, now, acc, row)
         == if HasEarlyAnchor(sheet, row, EndRow) then Err(DateOutOfRange)
            else Ok(acc + Merged(sheet, now, row, EndRow))
    decreases EndRow - row
  {
    if row >= EndRow {
      assert acc + map[] == acc;
      assert !HasEarlyAnchor(sheet, row, EndRow);
    } else {
      ApplyRowResult(sheet, now, row, acc);
      HasEarlyAnchorStep(sheet, row);
      if !(IsWeightRow(sheet, row) && Anchor(sheet, row) < SlotsPerWeek) {
        var rows := RowWrites(sheet, now, row);
        ScanFromResult(sheet, now, acc + rows, row + 1);
        MapUnionAssociative(acc, rows, Merged(sheet, now, row + 1, EndRow));
      }
    }
  }

  /** The whole scan, started on an empty dictionary at the first row. */
  lemma ScanResult(sheet: Sheet, now: Timestamp)
    ensures ScanFrom(sheet, now, map[], FirstRow)
         == if HasEarlyAnchor(sheet, FirstRow, EndRow) then Err(DateOutOfRange)
            else Ok(Merged(sheet, now, FirstRow, EndRow))
  {
    ScanFromResult(sheet, now, map[], FirstRow);
    assert map[] + Merged(sheet, now, FirstRow, EndRow) == Merged(sheet, now, FirstRow, EndRow);
  }

  // ---------------------------------------------------------------------
  // What the merged dictionary holds.

  /** A row writes an entry for `d` exactly when it contributes to `d`, and it is that slot's entry. */
  lemma RowWritesMeaning(sheet: Sheet, now: Timestamp, row: int, d: Ordinal)
    ensures d in RowWrites(sheet, now, row) <==> Contributes(sheet, row, d)
    ensures d in RowWrites(sheet, now, row)
         ==> RowWrites(sheet, now, row)[d] == SlotEntry(sheet, row, SlotOf(Anchor(sheet, row), d), now)
  {
  }

  /**
   * The merged writes of rows `lo` to `hi - 1` hold an entry for `d` exactly
   * when one of those rows contributes to `d`, and the entry is the one the
   * last such row writes.
   */
  lemma {:induction false} MergedIsLatest(sheet: Sheet, now: Timestamp, lo: int, hi: int, d: Ordinal)
    ensures d in Merged(sheet, now, lo, hi) <==> LatestRow(sheet, d, lo, hi).Some?
    ensures d in Merged(sheet, now, lo, hi) ==>
      var row := LatestRow(sheet, d, lo, hi).value;
      Merged(sheet, now, lo, hi)[d] == SlotEntry(sheet, row, SlotOf(Anchor(sheet, row), d), now)
    decreases hi - lo
  {
    if lo < hi {
      MergedIsLatest(sheet, now, lo + 1, hi, d);
      RowWritesMeaning(sheet, now, lo, d);
    }
  }

  /** A date has an entry if and only if some weight row of the scan range has a value on it. */
  lemma EntryIffData(sheet: Sheet, now: Timestamp, d: Ordinal)
    ensures d in Merged(sheet, now, FirstRow, EndRow)
        <==> exists row :: FirstRow <= row < EndRow && Contributes(sheet, row, d)
  {
    MergedIsLatest(sheet, now, FirstRow, EndRow, d);
    if d !in Merged(sheet, now, FirstRow, EndRow) {
      assert forall row :: FirstRow <= row < EndRow ==> !Contributes(sheet, row, d);
    }
  }

  /**
   * Every entry comes from the last weight row of the range that has a value
   * on its date: its weight is that row's normalised cell in the date's
   * column, its calories the normalised cell above it, and its note is the
   * fixed import note.
   */
  lemma EntryFields(sheet: Sheet, now: Timestamp, d: Ordinal)
    requires d in Merged(sheet, now, FirstRow, EndRow)
    ensures exists row ::
      && FirstRow <= row < EndRow
      && Contributes(sheet, row, d)
      && (forall later :: row < later < EndRow ==> !Contributes(sheet, later, d))
      && Merged(sheet, now, FirstRow, EndRow)[d]
         == Entry(SafeFloat(CellAt(sheet, row, FirstValueColumn + SlotOf(Anchor(sheet, row), d))),
                  SafeFloat(CellAt(sheet, row - 1, FirstValueColumn + SlotOf(Anchor(sheet, row), d))),
                  "Imported from Excel", now)
  {
    MergedIsLatest(sheet, now, FirstRow, EndRow, d);
    var row := LatestRow(sheet, d, FirstRow, EndRow).value;
    assert FirstRow <= row < EndRow && Contributes(sheet, row, d);
  }

  /**
   * Whole-record replacement: when a later weight row has a value on a date
   * that an earlier one also wrote, and no row after it does, the entry is
   * exactly the later row's, null fields included; nothing of the earlier
   * entry survives.
   */
  lemma LaterRowReplaces(sheet: Sheet, now: Timestamp, early: int, late: int, d: Ordinal)
    requires FirstRow <= early < late < EndRow
    requires Contributes(sheet, early, d) && Contributes(sheet, late, d)
    requires forall row :: late < row < EndRow ==> !Contributes(sheet, row, d)
    ensures d in Merged(sheet, now, FirstRow, EndRow)
    ensures Merged(sheet, now, FirstRow, EndRow)[d] == SlotEntry(sheet, late, SlotOf(Anchor(sheet, late), d), now)
  {
    MergedIsLatest(sheet, now, FirstRow, EndRow, d);
    var row := LatestRow(sheet, d, FirstRow, EndRow).value;
    assert row == late;
  }

  /** Every key lies in the week of some weight row of the scan range. */
  lemma KeysWithinAnchorWeeks(sheet: Sheet, now: Timestamp)
    ensures forall d :: d in Merged(sheet, now, FirstRow, EndRow) ==>
      exists row :: FirstRow <= row < EndRow && IsWeightRow(sheet, row) && InWeek(Anchor(sheet, row), d)
  {
    forall d | d in Merged(sheet, now, FirstRow, EndRow)
      ensures exists row :: FirstRow <= row < EndRow && IsWeightRow(sheet, row) && InWeek(Anchor(sheet, row), d)
    {
      EntryIffData(sheet, now, d);
    }
  }

  /** Processing the same row twice gives what processing it once gives. */
  lemma ApplyRowIdempotent(sheet: Sheet, now: Timestamp, row: int, acc: Entries)
    requires ApplyRow(sheet, now, row, acc).Ok?
    ensures ApplyRow(sheet, now, row, ApplyRow(sheet, now, row, acc).value) == ApplyRow(sheet, now, row, acc)
  {
    ApplyRowResult(sheet, now, row, acc);
    var once := acc + RowWrites(sheet, now, row);
    ApplyRowResult(sheet, now, row, once);
    assert once + RowWrites(sheet, now, row) == once;
  }
}
