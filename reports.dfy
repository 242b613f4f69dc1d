/**
  `GenerateReports`: the three report builders. Each groups the active items by type, in
  ascending type order, orders every group by its comparator and numbers the rows from 1.
  The report text is the two header lines followed by the sections; the column padding of
  `String.format` and the long date format are not modelled.
*/
module GenerateReports {
  import opened Wrappers
  import opened Model
  import opened Sorting
  import opened Listings

  /** `generateReportSortedAlphabetically`: groups ordered by item name. */
  method GenerateReportSortedAlphabetically(items: seq<Item>) returns (report: Listing)
    ensures report.title == "Inventory Report\n" && report.underline == "----------------\n\n"
    ensures Lists(report.sections, items, Some(ByItemName), false)
    ensures multiset(AllRowItems(report.sections)) == multiset(items)
  {
    var sections := ListSections(items, Some(ByItemName), false);
    report := Listing("Inventory Report\n", "----------------\n\n", sections);
  }

  /** `generateReportContentSortedByItemNumber`: groups ordered by ascending item number. */
  method GenerateReportContentSortedByItemNumber(items: seq<Item>) returns (report: Listing)
    ensures report.title == "Inventory Report (Sorted by Item Number)\n"
    ensures report.underline == "---------------------------------------\n\n"
    ensures Lists(report.sections, items, Some(ByItemNumber), false)
    ensures multiset(AllRowItems(report.sections)) == multiset(items)
  {
    var sections := ListSections(items, Some(ByItemNumber), false);
    report := Listing("Inventory Report (Sorted by Item Number)\n", "---------------------------------------\n\n", sections);
  }

  /** `generateReportContentSortedByQuantity`: groups ordered by descending quantity. */
  method GenerateReportContentSortedByQuantity(items: seq<Item>) returns (report: Listing)
    ensures report.title == "Inventory Report (Sorted by Quantity)\n"
    ensures report.underline == "---------------------------------------\n\n"
    ensures Lists(report.sections, items, Some(ByQuantityDescending), false)
    ensures multiset(AllRowItems(report.sections)) == multiset(items)
  {
    var sections := ListSections(items, Some(ByQuantityDescending), false);
    report := Listing("Inventory Report (Sorted by Quantity)\n", "---------------------------------------\n\n", sections);
  }

  /** The title line each builder writes first; it is the only line naming the sort used. */
  function ReportTitle(key: SortKey): string
  {
    match key
    case ByQuantityDescending => "Inventory Report (Sorted by Quantity)\n"
    case ByItemNumber => "Inventory Report (Sorted by Item Number)\n"
    case ByItemName => "Inventory Report\n"
  }

  /** The dashed line each builder writes under its title, followed by a blank line. */
  function ReportUnderline(key: SortKey): string
  {
    match key
    case ByItemName => "----------------\n\n"
    case _ => "---------------------------------------\n\n"
  }

  /** The title alone tells which of the three sorts the report used. */
  lemma ReportTitleNamesSort(k1: SortKey, k2: SortKey)
    ensures ReportTitle(k1) == ReportTitle(k2) <==> k1 == k2
  {
  }

  /**
    The quantity report puts larger quantities first within a type, and items of equal
    quantity stay in the order the active list holds them.
  */
  lemma QuantityReportOrder(report: Listing, items: seq<Item>, i: int, a: int, b: int, y: Item)
    requires Lists(report.sections, items, Some(ByQuantityDescending), false)
    requires 0 <= i < |report.sections| && 0 <= a < b < |report.sections[i].rows|
    ensures report.sections[i].rows[a].item.quantity >= report.sections[i].rows[b].item.quantity
    ensures Ties(ByQuantityDescending, RowItems(report.sections[i].rows), y)
        == Ties(ByQuantityDescending, FilterType(items, report.sections[i].itemType), y)
  {
    SectionSorted(report.sections, items, ByQuantityDescending, false, i, y);
  }

  /** The item-number report lists each type's items by ascending number. */
  lemma ItemNumberReportOrder(report: Listing, items: seq<Item>, i: int, a: int, b: int)
    requires Lists(report.sections, items, Some(ByItemNumber), false)
    requires 0 <= i < |report.sections| && 0 <= a < b < |report.sections[i].rows|
    ensures report.sections[i].rows[a].item.itemNumber <= report.sections[i].rows[b].item.itemNumber
  {
    SectionSorted(report.sections, items, ByItemNumber, false, i, report.sections[i].rows[a].item);
  }
}

/**
  `UpdateInventoryTextArea`: the main window's listing of the active items, grouped by type
  and ordered by name, with long names cut short.
*/
module UpdateInventoryTextArea {
  import opened Wrappers
  import opened Model
  import opened Sorting
  import opened Listings

  /**
    `reloadTextArea`: `None` when the list is empty, the method then returning before
    `setText` so the text area keeps its text; otherwise the new text.
  */
  method ReloadTextArea(items: seq<Item>) returns (shown: Option<Listing>)
    ensures shown.None? <==> items == []
    ensures shown.Some? ==> shown.value.title == " Inventory Report\n" && shown.value.underline == " ---------------------\n\n"
    ensures shown.Some? ==> Lists(shown.value.sections, items, Some(ByItemName), true)
    ensures shown.Some? ==> multiset(AllRowItems(shown.value.sections)) == multiset(items)
  {
    if items == [] {
      return None;
    }
    var sections := ListSections(items, Some(ByItemName), true);
    shown := Some(Listing(" Inventory Report\n", " ---------------------\n\n", sections));
  }
}

/**
  `UpdateDeletedItemsTextArea`: the listing of the deleted items, grouped by type with each
  group in file order, with long names cut short.
*/
module UpdateDeletedItemsTextArea {
  import opened Wrappers
  import opened Model
  import opened Listings

  /** `populateTextArea`: always sets the text; no items leaves only the header. */
  method PopulateTextArea(deletedItems: seq<Item>) returns (shown: Listing)
    ensures shown.title == "  Deleted Items Report\n" && shown.underline == " --------------------------------\n\n"
    ensures Lists(shown.sections, deletedItems, None, true)
    ensures multiset(AllRowItems(shown.sections)) == multiset(deletedItems)
    ensures deletedItems == [] ==> shown.sections == []
  {
    var sections := ListSections(deletedItems, None, true);
    if deletedItems == [] {
      NoItemsNoSections(sections, None, true);
    }
    shown := Listing("  Deleted Items Report\n", " --------------------------------\n\n", sections);
  }

  /** Without a sort, each section holds exactly its type's deleted items in file order. */
  lemma DeletedSectionInFileOrder(shown: Listing, deletedItems: seq<Item>, i: int)
    requires Lists(shown.sections, deletedItems, None, true) && 0 <= i < |shown.sections|
    ensures RowItems(shown.sections[i].rows) == FilterType(deletedItems, shown.sections[i].itemType)
    ensures forall k :: 0 <= k < |shown.sections[i].rows| ==> |shown.sections[i].rows[k].shownName| <= 35
  {
    forall k | 0 <= k < |shown.sections[i].rows|
      ensures |shown.sections[i].rows[k].shownName| <= 35
    {
      DisplayNameBound(shown.sections[i].rows[k].item.itemName);
    }
  }
}
