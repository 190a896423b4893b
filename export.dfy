/**
 * The exporter: the entries dictionary sorted by date, wrapped in a
 * versioned snapshot with the fixed unit settings.
 */
module Export {
  import opened Cells
  import opened Scan

  datatype Settings = Settings(weightUnit: string, calorieUnit: string)

  /**
   * The exported document. `entries` is the sorted dictionary as its
   * sequence of items, in the order they are written out.
   */
  datatype Snapshot = Snapshot(version: int, exportedAt: Timestamp, settings: Settings, entries: seq<(Ordinal, Entry)>)

  const FormatVersion: int := 1
  const UnitSettings: Settings := Settings("kg", "cal")

  predicate Ascending(items: seq<(Ordinal, Entry)>) {
    forall i, j :: 0 <= i < j < |items| ==> items[i].0 < items[j].0
  }

  /** `dict(items)`: the dictionary of a sequence of items, a later item replacing an earlier one with its key. */
  function DictOf(items: seq<(Ordinal, Entry)>): Entries {
    if items == [] then map[]
    else DictOf(items[..|items| - 1])[items[|items| - 1].0 := items[|items| - 1].1]
  }

  /** An item dated before every item of an ascending sequence can go in front of it. */
  lemma AscendingCons(item: (Ordinal, Entry), rest: seq<(Ordinal, Entry)>)
    requires Ascending(rest)
    requires forall p :: p in rest ==> item.0 < p.0
    ensures Ascending([item] + rest)
  {
    var items := [item] + rest;
    forall i, j | 0 <= i < j < |items| ensures items[i].0 < items[j].0 {
      assert items[j] == rest[j - 1];
      if i > 0 {
        assert items[i] == rest[i - 1];
      }
    }
  }

  /**
   * The items of `entries` dated `d` or later, by ascending date: each day
   * from `d` to the last representable date, in turn, that has an entry.
   */
  function ItemsFrom(entries: Entries, d: int): (items: seq<(Ordinal, Entry)>)
    requires 1 <= d
    ensures Ascending(items)
    ensures forall p :: p in items ==> d <= p.0 && p.0 in entries && entries[p.0] == p.1
    ensures forall k :: k in entries && d <= k ==> (k, entries[k]) in items
    decreases MaxOrdinal + 1 - d
  {
    if d > MaxOrdinal then []
    else
      var day: Ordinal := d;
      var rest := ItemsFrom(entries, d + 1);
      if day in entries then
        AscendingCons((day, entries[day]), rest);
        [(day, entries[day])] + rest
      else rest
  }

  /** `sorted(entries.items())`: the items of the dictionary by ascending date. */
  function SortedItems(entries: Entries): (items: seq<(Ordinal, Entry)>)
    ensures Ascending(items)
    ensures forall p :: p in items <==> p.0 in entries && entries[p.0] == p.1
  {
    ItemsFrom(entries, 1)
  }

  lemma AscendingInit(items: seq<(Ordinal, Entry)>)
    requires Ascending(items) && items != []
    ensures Ascending(items[..|items| - 1])
    ensures forall p :: p in items[..|items| - 1] ==> p.0 < items[|items| - 1].0
  {
    var init := items[..|items| - 1];
    forall i, j | 0 <= i < j < |init| ensures init[i].0 < init[j].0 {
      assert init[i] == items[i] && init[j] == items[j];
    }
    forall p | p in init ensures p.0 < items[|items| - 1].0 {
      var i :| 0 <= i < |init| && init[i] == p;
      assert items[i] == p;
    }
  }

  lemma ItemsSplit(items: seq<(Ordinal, Entry)>)
    requires items != []
    ensures forall p :: p in items <==> p in items[..|items| - 1] || p == items[|items| - 1]
  {
    var init := items[..|items| - 1];
    assert items == init + [items[|items| - 1]];
  }

  /** The dictionary of items with distinct keys holds each item and nothing else. */
  lemma {:induction false} DictOfDistinct(items: seq<(Ordinal, Entry)>)
    requires Ascending(items)
    ensures forall p :: p in items ==> p.0 in DictOf(items) && DictOf(items)[p.0] == p.1
    ensures forall k :: k in DictOf(items) ==> (k, DictOf(items)[k]) in items
  {
    if items != [] {
      AscendingInit(items);
      ItemsSplit(items);
      DictOfDistinct(items[..|items| - 1]);
    }
  }

  /**
   * Round trip: re-reading the sorted items as a dictionary gives back
   * exactly the entries they were sorted from.
   */
  lemma SortedItemsRoundTrip(entries: Entries)
    ensures DictOf(SortedItems(entries)) == entries
  {
    var items := SortedItems(entries);
    DictOfDistinct(items);
    var back := DictOf(items);
    forall k | k in entries ensures k in back && back[k] == entries[k] {
      assert (k, entries[k]) in items;
    }
    forall k | k in back ensures k in entries {
      assert (k, back[k]) in items;
    }
  }

  /**
   * The snapshot of an entries dictionary: format version 1, the fixed units
   * `kg` and `cal`, the export time, and the entries sorted by date, holding
   * exactly the dictionary's keys and values.
   */
  function MakeSnapshot(entries: Entries, exportedAt: Timestamp): (s: Snapshot)
    ensures s.version == 1 && s.settings == Settings("kg", "cal") && s.exportedAt == exportedAt
    ensures Ascending(s.entries) && DictOf(s.entries) == entries
  {
    SortedItemsRoundTrip(entries);
    Snapshot(FormatVersion, exportedAt, UnitSettings, SortedItems(entries))
  }
}
