/**
 * The extraction run: scan the sheet row by row, build the entries
 * dictionary in place, and wrap it in a snapshot. It fails only when a date
 * before 0001-01-01 would be computed, in which case nothing is exported.
 */
module Extractor {
  import opened Cells
  import opened Normalizer
  import opened Dates
  import opened Scan
  import opened Export

  /**
   * `extract()` from the opened sheet on. `now` stands for the clock
   * reading used for every `updatedAt` and for `exportedAt`.
   */
  method Extract(sheet: Sheet, now: Timestamp) returns (r: Result<Snapshot, ExtractError>)
    ensures r.Err? <==> HasEarlyAnchor(sheet, FirstRow, EndRow)
    ensures r.Ok? ==> r.value == MakeSnapshot(Merged(sheet, now, FirstRow, EndRow), now)
  {
    ScanResult(sheet, now);
    var entries: Entries := map[];
    var row := FirstRow;
    while row < EndRow
      invariant FirstRow <= row <= EndRow
      invariant ScanFrom(sheet, now, entries, row) == ScanFrom(sheet, now, map[], FirstRow)
    {
      var cellDate := CellAt(sheet, row, DateColumn);
      var cellType := CellAt(sheet, row, TagColumn);
      if cellDate.DateTime? && cellType == Text(WeightTag) {
        var anchor := cellDate.day;
        var weights := seq(SlotsPerWeek, slot => CellAt(sheet, row, FirstValueColumn + slot));
        var calories := seq(SlotsPerWeek, slot => CellAt(sheet, row - 1, FirstValueColumn + slot));
        ghost var before := entries;
        var slot := 0;
        while slot < SlotsPerWeek
          invariant 0 <= slot <= SlotsPerWeek
          invariant SlotsFrom(sheet, now, row, entries, slot) == SlotsFrom(sheet, now, row, before, 0)
        {
          var date := SlotDate(anchor, slot);
          if date.Err? {
            r := Err(date.error);
            return;
          }
          var w := SafeFloat(weights[slot]);
          var c := SafeFloat(calories[slot]);
          if w.Some? || c.Some? {
            entries := entries[date.value := Entry(w, c, ImportNote, now)];
          }
          slot := slot + 1;
        }
      }
      row := row + 1;
    }
    r := Ok(MakeSnapshot(entries, now));
  }

  /**
   * The exported entries of a successful run: a date has an entry exactly
   * when some weight row of rows 12 to 99 has a weight or a calorie value on
   * it, and the entry is the one the last such row writes, whole.
   */
  lemma ExportedEntries(sheet: Sheet, now: Timestamp, d: Ordinal)
    ensures var exported := DictOf(MakeSnapshot(Merged(sheet, now, FirstRow, EndRow), now).entries);
      d in exported <==> exists row :: FirstRow <= row < EndRow && Contributes(sheet, row, d)
    ensures var exported := DictOf(MakeSnapshot(Merged(sheet, now, FirstRow, EndRow), now).entries);
      d in exported <==> LatestRow(sheet, d, FirstRow, EndRow).Some?
    ensures var exported := DictOf(MakeSnapshot(Merged(sheet, now, FirstRow, EndRow), now).entries);
      d in exported ==>
        var row := LatestRow(sheet, d, FirstRow, EndRow).value;
        exported[d] == SlotEntry(sheet, row, SlotOf(Anchor(sheet, row), d), now)
  {
    var merged := Merged(sheet, now, FirstRow, EndRow);
    assert DictOf(MakeSnapshot(merged, now).entries) == merged;
    EntryIffData(sheet, now, d);
    MergedIsLatest(sheet, now, FirstRow, EndRow, d);
  }

  /**
   * One week ending on Saturday 2025-12-20 (day 739605): the weight row 13
   * has 70.0 in column D and 71.0 in column J, and the calorie row above it
   * has 1800 in column D and 2000 in column E.
   */
  const ExampleSheet: Sheet := map[
    (12, 3) := Text("Cal."), (12, 4) := Number(1800.0), (12, 5) := Number(2000.0),
    (13, 2) := DateTime(739605, 0), (13, 3) := Text("Weight"),
    (13, 4) := Number(70.0), (13, 10) := Number(71.0)]

  /** Row 13 is the example's only weight row, and its anchor is 2025-12-20. */
  lemma ExampleRows()
    ensures IsWeightRow(ExampleSheet, 13) && Anchor(ExampleSheet, 13) == 739605
    ensures forall row :: IsWeightRow(ExampleSheet, row) ==> row == 13
  {
  }

  /** Row 13 has a value on exactly the Sunday, the Monday and the Saturday. */
  lemma ExampleContributions(d: Ordinal)
    ensures Contributes(ExampleSheet, 13, d) <==> d == 739599 || d == 739600 || d == 739605
  {
    ExampleRows();
  }

  /** Each exported day of the example is written by row 13. */
  lemma ExampleDay(now: Timestamp, d: Ordinal)
    ensures var exported := DictOf(MakeSnapshot(Merged(ExampleSheet, now, FirstRow, EndRow), now).entries);
      && (d in exported <==> d == 739599 || d == 739600 || d == 739605)
      && (d in exported ==> exported[d] == SlotEntry(ExampleSheet, 13, SlotOf(739605, d), now))
  {
    ExampleRows();
    ExampleContributions(d);
    ExportedEntries(ExampleSheet, now, d);
  }

  /** The entries row 13 writes for its Sunday, Monday and Saturday slots. */
  lemma ExampleSlots(now: Timestamp)
    ensures SlotEntry(ExampleSheet, 13, 0, now) == Entry(Some(Finite(70.0)), Some(Finite(1800.0)), "Imported from Excel", now)
    ensures SlotEntry(ExampleSheet, 13, 1, now) == Entry(None, Some(Finite(2000.0)), "Imported from Excel", now)
    ensures SlotEntry(ExampleSheet, 13, 6, now) == Entry(Some(Finite(71.0)), None, "Imported from Excel", now)
  {
  }

  /**
   * The example week exports three entries: Sunday 2025-12-14 with the
   * weight and the calories of column D, taken from the two rows, Monday
   * 2025-12-15 with only the calories of column E,
   * and the Saturday itself with the weight of column J; no other day.
   */
  lemma ExampleWeek(now: Timestamp)
    ensures !HasEarlyAnchor(ExampleSheet, FirstRow, EndRow)
    ensures var exported := DictOf(MakeSnapshot(Merged(ExampleSheet, now, FirstRow, EndRow), now).entries);
      && (forall d: Ordinal :: d in exported <==> d == 739599 || d == 739600 || d == 739605)
      && exported[739599] == Entry(Some(Finite(70.0)), Some(Finite(1800.0)), "Imported from Excel", now)
      && exported[739600] == Entry(None, Some(Finite(2000.0)), "Imported from Excel", now)
      && exported[739605] == Entry(Some(Finite(71.0)), None, "Imported from Excel", now)
  {
    ExampleRows();
    var exported := DictOf(MakeSnapshot(Merged(ExampleSheet, now, FirstRow, EndRow), now).entries);
    forall d: Ordinal ensures d in exported <==> d == 739599 || d == 739600 || d == 739605 {
      ExampleDay(now, d);
    }
    ExampleDay(now, 739599);
    ExampleDay(now, 739600);
    ExampleDay(now, 739605);
    ExampleSlots(now);
  }
}
