/**
 * The date expander: the seven value columns of a week row stand for the
 * seven days that end on the row's anchor date, earliest first.
 */
module Dates {
  import opened Cells

  /** The only failure of an extraction run: a date before 0001-01-01. */
  datatype ExtractError = DateOutOfRange

  const SlotsPerWeek: int := 7

  predicate IsSlot(slot: int) { 0 <= slot < SlotsPerWeek }

  /**
   * The date of slot `slot` in the week ending on `anchor`: the anchor moved
   * back by `6 - slot` days. Subtracting past the first representable date
   * raises an OverflowError in the source, which ends the whole run.
   */
  function SlotDate(anchor: Ordinal, slot: int): (r: Result<Ordinal, ExtractError>)
    requires IsSlot(slot)
  {
    var daysBefore := (SlotsPerWeek - 1) - slot;
    if anchor - daysBefore < 1 then Err(DateOutOfRange) else Ok(anchor - daysBefore)
  }

  /** The slot whose date is `d` in the week ending on `anchor` (in range when `d` is in that week). */
  function SlotOf(anchor: Ordinal, d: int): int {
    d - anchor + (SlotsPerWeek - 1)
  }

  /** The dates of a week: the anchor and the six days before it. */
  predicate InWeek(anchor: Ordinal, d: int) {
    anchor - (SlotsPerWeek - 1) <= d <= anchor
  }

  /**
   * Every slot's date is the anchor minus `6 - slot` days, or the run fails
   * exactly when that date would fall before day 1. Slot 6 is the anchor
   * itself and slot 0 six days earlier.
   */
  lemma SlotDateMeaning(anchor: Ordinal, slot: int)
    requires IsSlot(slot)
    ensures SlotDate(anchor, slot).Err? <==> anchor - (6 - slot) < 1
    ensures SlotDate(anchor, slot).Ok? ==> SlotDate(anchor, slot).value == anchor - (6 - slot)
    ensures SlotDate(anchor, 6) == Ok(anchor)
    ensures anchor > 6 ==> SlotDate(anchor, 0) == Ok(anchor - 6)
  {
  }

  /**
   * An anchor of day 7 or later has all seven dates, and they are exactly
   * the days of its week, strictly increasing with the slot.
   */
  lemma {:induction false} WeekOfAnchor(anchor: Ordinal)
    requires anchor > SlotsPerWeek - 1
    ensures forall slot :: IsSlot(slot) ==> SlotDate(anchor, slot).Ok?
    ensures forall s1, s2 :: IsSlot(s1) && IsSlot(s2) && s1 < s2 ==> SlotDate(anchor, s1).value < SlotDate(anchor, s2).value
    ensures forall d :: InWeek(anchor, d) <==> exists slot :: IsSlot(slot) && SlotDate(anchor, slot) == Ok(d)
  {
    forall d | InWeek(anchor, d) ensures exists slot :: IsSlot(slot) && SlotDate(anchor, slot) == Ok(d) {
      SlotOfInverse(anchor, d);
    }
  }

  /** SlotOf inverts SlotDate on the days of the week. */
  lemma SlotOfInverse(anchor: Ordinal, d: int)
    requires InWeek(anchor, d) && d >= 1
    ensures IsSlot(SlotOf(anchor, d))
    ensures SlotDate(anchor, SlotOf(anchor, d)) == Ok(d)
  {
  }

  /** An anchor before day 7 fails already at slot 0, six days earlier. */
  lemma EarlyAnchorFails(anchor: Ordinal)
    requires anchor <= SlotsPerWeek - 1
    ensures SlotDate(anchor, 0) == Err(DateOutOfRange)
  {
  }
}
