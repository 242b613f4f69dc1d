/**
  `GUIComponentInitializer`: the window's button listeners over the shared list of active
  items and the two CSV stores. Every dialog answer is a parameter (`None` for a dialog
  that was closed or cancelled), and each listener is proved to act exactly as its decision
  in `GuiDecisions` says: a refused decision changes nothing, an accepted one makes that
  change to the list and the stores.
*/
module GuiComponents {
  import opened Wrappers
  import opened Dates
  import opened Model
  import opened CsvHandler
  import opened RandomNumberGenerator
  import opened Sorting
  import opened Listings
  import opened GenerateReports
  import UpdateInventoryTextArea
  import UpdateDeletedItemsTextArea
  import opened PromptForUpdateConfirmation
  import opened GuiDecisions

  /**
    The `for (InventoryItem item : list)` lookups: the position of the first object carrying
    the number, the loop breaking there.
  */
  method FindItem(items: seq<InventoryItem>, itemNumber: int) returns (found: Option<nat>)
    ensures found == FirstIndexOf(Values(items), itemNumber)
  {
    ghost var values := Values(items);
    var i := 0;
    while i < |items|
      invariant 0 <= i <= |items|
      invariant forall j :: 0 <= j < i ==> values[j].itemNumber != itemNumber
    {
      assert values[i] == items[i].Value();
      if items[i].itemNumber == itemNumber {
        return Some(i);
      }
      i := i + 1;
    }
    return None;
  }

  /**
    `List.remove(Object)`: drops the first occurrence of the object. `InventoryItem` does not
    override `equals`, so occurrence means the same object.
  */
  function RemoveFirst(items: seq<InventoryItem>, obj: InventoryItem): (r: seq<InventoryItem>)
    ensures obj !in items ==> r == items
    ensures obj in items ==> |r| == |items| - 1
  {
    if items == [] then []
    else if items[0] == obj then items[1..]
    else [items[0]] + RemoveFirst(items[1..], obj)
  }

  /** Removing the object found at `k`, when it does not occur earlier, removes position `k`. */
  lemma {:induction false} RemoveFirstAt(items: seq<InventoryItem>, k: nat)
    requires k < |items| && forall j :: 0 <= j < k ==> items[j] != items[k]
    ensures RemoveFirst(items, items[k]) == items[..k] + items[k + 1..]
  {
    if k > 0 {
      RemoveFirstAt(items[1..], k - 1);
      assert items[1..][..k - 1] + items[1..][k..] == items[1..k] + items[k + 1..];
      assert items[..k] + items[k + 1..] == [items[0]] + (items[1..k] + items[k + 1..]);
    }
  }

  /**
    The number prompt followed by the lookup loop: the position of the first object carrying
    the number typed in, or where the chain stops.
  */
  method LookupItem(items: seq<InventoryItem>, numberInput: Option<string>) returns (d: Decision<nat>)
    ensures d == LookupInput(Values(items), numberInput)
  {
    var number := ItemNumberInput(numberInput);
    if number.Refused? {
      return Refused(number.outcome);
    }
    var found := FindItem(items, number.value);
    if found.None? {
      return Refused(NotFound);
    }
    return Accepted(found.value);
  }

  /** The list without the object at `k`, when that object occurs only there. */
  method RemoveAt(items: seq<InventoryItem>, k: nat) returns (rest: seq<InventoryItem>)
    requires k < |items| && Distinct(items)
    ensures rest == items[..k] + items[k + 1..] && Distinct(rest)
    ensures Values(rest) == Values(items)[..k] + Values(items)[k + 1..]
  {
    RemoveFirstAt(items, k);
    ValuesRemoveAt(items, k);
    DistinctRemoveAt(items, k);
    rest := RemoveFirst(items, items[k]);
  }

  /**
    `"By Quantity"` and `"By Item Number"` select their comparators; every other choice,
    `"Alphabetically"` among them, falls to the switch's default.
  */
  function SortChoiceKey(sortChoice: string): (key: SortKey)
    ensures key == ByQuantityDescending <==> sortChoice == "By Quantity"
    ensures key == ByItemNumber <==> sortChoice == "By Item Number"
  {
    match sortChoice
    case "By Quantity" => ByQuantityDescending
    case "By Item Number" => ByItemNumber
    case _ => ByItemName
  }

  /** The report-generating switch: each comparator has its own report generator. */
  method ReportContent(values: seq<Item>, key: SortKey) returns (report: Listing)
    ensures report.title == ReportTitle(key) && report.underline == ReportUnderline(key)
    ensures Lists(report.sections, values, Some(key), false)
    ensures multiset(AllRowItems(report.sections)) == multiset(values)
  {
    match key {
      case ByQuantityDescending =>
        report := GenerateReportContentSortedByQuantity(values);
      case ByItemNumber =>
        report := GenerateReportContentSortedByItemNumber(values);
      case ByItemName =>
        report := GenerateReportSortedAlphabetically(values);
    }
  }

  /** A store that is `before` followed by one line per value is `before` and their encoding. */
  lemma AppendedLines(file: seq<string>, before: seq<string>, values: seq<Item>)
    requires |file| == |before| + |values| && file[..|before|] == before
    requires forall j :: 0 <= j < |values| ==> file[|before| + j] == FormatLine(values[j])
    ensures file == before + Encode(values)
  {
    var lines := Encode(values);
    forall j | 0 <= j < |file|
      ensures file[j] == (before + lines)[j]
    {
      if j < |before| {
        assert file[j] == file[..|before|][j];
      } else {
        assert file[|before| + (j - |before|)] == FormatLine(values[j - |before|]);
      }
    }
  }

  /** The objects a restore moves back to the inventory and those left in the deleted list. */
  datatype Restoring = Restoring(moved: seq<InventoryItem>, kept: seq<InventoryItem>)

  class InventoryManager {
    /** `inventoryItemsList`: the active items, shared by all listeners. */
    var active: seq<InventoryItem>
    /** The inventory store and the deleted-items store. */
    const files: CsvFiles

    /** Each object occurs once, so removing an object removes one position. */
    ghost predicate Valid()
      reads this
    {
      Distinct(active)
    }

    /** The inventory store holds exactly the lines of the active list, in list order. */
    ghost predicate Synced()
      reads this, files, active
    {
      files.inventoryFile == Encode(Values(active))
    }

    /**
      `initializeGUIComponents` keeps the list it is given; at start-up that is the list
      loaded from the inventory store, one new object per line.
    */
    constructor (files: CsvFiles, itemsList: seq<InventoryItem>)
      requires Distinct(itemsList)
      ensures this.files == files && active == itemsList && Valid()
    {
      this.files := files;
      active := itemsList;
    }

    /** The view-inventory listener: the main text area's new text, if any. */
    method ViewInventory() returns (shown: Option<Listing>)
      ensures shown.None? <==> active == []
      ensures shown.Some? ==> Lists(shown.value.sections, Values(active), Some(ByItemName), true)
      ensures shown.Some? ==> multiset(AllRowItems(shown.value.sections)) == multiset(Values(active))
    {
      shown := UpdateInventoryTextArea.ReloadTextArea(Values(active));
    }

    /** The view-deleted-items listener: the deleted store, read and listed in file order. */
    method ViewDeletedItems() returns (shown: Listing)
      ensures Lists(shown.sections, Decode(files.deletedFile), None, true)
      ensures multiset(AllRowItems(shown.sections)) == multiset(Decode(files.deletedFile))
    {
      var trashItems := files.ReadItemsFromDeletedCSVFile();
      shown := UpdateDeletedItemsTextArea.PopulateTextArea(Values(trashItems));
    }

    /**
      The create listener: a confirmed item is added as a new object at the end of the list
      and the inventory store is rewritten from the whole list.
    */
    method Create(nameInput: Option<string>, quantityInput: Option<string>, typeInput: Option<string>,
      draws: seq<int>, today: LocalDate, confirmed: bool) returns (outcome: Outcome)
      requires Valid() && ValidDraws(draws)
      modifies this`active, files`inventoryFile
      ensures Valid()
      ensures match CreateDecision(old(Values(active)), nameInput, quantityInput, typeInput, draws, today, confirmed)
        case Refused(o) =>
          outcome == o && active == old(active) && files.inventoryFile == old(files.inventoryFile)
        case Accepted(item) =>
          outcome == Success && |active| == |old(active)| + 1 && active[..|old(active)|] == old(active)
          && fresh(active[|old(active)|]) && Values(active) == old(Values(active)) + [item] && Synced()
    {
      var d := CreateCheck(nameInput, quantityInput, typeInput, draws, today, confirmed);
      match d {
        case Refused(o) =>
          outcome := o;
        case Accepted(item) =>
          AddItem(item);
          outcome := Success;
      }
    }

    /** The create listener's dialogs, up to and including the confirmation. */
    method CreateCheck(nameInput: Option<string>, quantityInput: Option<string>, typeInput: Option<string>,
      draws: seq<int>, today: LocalDate, confirmed: bool) returns (d: Decision<Item>)
      requires ValidDraws(draws)
      ensures d == CreateDecision(Values(active), nameInput, quantityInput, typeInput, draws, today, confirmed)
    {
      var name := NameInput(nameInput);
      if name.Refused? {
        return Refused(name.outcome);
      }
      var quantity := QuantityInput(quantityInput);
      if quantity.Refused? {
        return Refused(quantity.outcome);
      }
      if typeInput.None? {
        return Refused(Cancelled);
      }
      var itemNumber := GenerateRandomNumber(typeInput.value, Values(active), draws);
      if itemNumber.None? {
        return Refused(Exhausted);
      }
      if !confirmed {
        return Refused(Cancelled);
      }
      d := Accepted(Item(name.value, quantity.value, itemNumber.value, typeInput.value, today));
    }

    /** A confirmed creation: a new object at the end of the list, then the store rewritten. */
    method AddItem(item: Item)
      requires Valid()
      modifies this`active, files`inventoryFile
      ensures Valid()
      ensures |active| == |old(active)| + 1 && active[..|old(active)|] == old(active) && fresh(active[|old(active)|])
      ensures Values(active) == old(Values(active)) + [item] && Synced()
    {
      active := AppendNew(active, item);
      assert active[..|old(active)|] == old(active);
      label added:
      files.WriteCreatedItemToInventoryCSV(active);
      ValuesUnchanged@added(active);
    }

    /**
      The update listener. The selected object is changed in place, so the list keeps its
      objects and only the value at the selected position changes; the store is then
      rewritten from the list.
    */
    method Update(numberInput: Option<string>, option: Option<string>, newValueInput: Option<string>,
      confirmed: bool) returns (outcome: Outcome)
      requires Valid()
      modifies active, files`inventoryFile
      ensures active == old(active) && Valid()
      ensures match UpdateDecision(old(Values(active)), old(Decode(files.inventoryFile)), numberInput, option,
          newValueInput, confirmed)
        case Refused(o) =>
          outcome == o && Values(active) == old(Values(active)) && files.inventoryFile == old(files.inventoryFile)
        case Accepted(e) =>
          outcome == Success && e.index < |active|
          && Values(active) == old(Values(active))[e.index := e.value] && Synced()
    {
      var list := files.ReadItemsFromInventoryCSVFile();
      ValuesUnchanged(active);
      if |list| == 0 {
        return Empty;
      }
      var lookup := LookupItem(active, numberInput);
      if lookup.Refused? {
        return lookup.outcome;
      }
      if option.None? {
        return Cancelled;
      }
      outcome := UpdateSelected(lookup.value, option.value, newValueInput, confirmed);
    }

    /** The selected field's case of the update listener, for the object at `k`. */
    method UpdateSelected(k: nat, option: string, newValueInput: Option<string>, confirmed: bool)
      returns (outcome: Outcome)
      requires Valid() && k < |active|
      modifies active, files`inventoryFile
      ensures active == old(active) && Valid()
      ensures match UpdateField(old(Values(active)), k, option, newValueInput, confirmed)
        case Refused(o) =>
          outcome == o && Values(active) == old(Values(active)) && files.inventoryFile == old(files.inventoryFile)
        case Accepted(e) =>
          outcome == Success && e.index == k
          && Values(active) == old(Values(active))[k := e.value] && Synced()
    {
      var newValue := FieldValue(Values(active), active[k].Value(), option, newValueInput);
      if newValue.Refused? {
        return newValue.outcome;
      }
      outcome := ConfirmUpdate(k, option, newValue.value, confirmed);
    }

    /**
      `showUpdateConfirmationDialog` on the object at `k`: only that object's value can
      change, and the store is rewritten from the list after a change.
    */
    method ConfirmUpdate(k: nat, option: string, newValue: string, confirmed: bool) returns (outcome: Outcome)
      requires Valid() && k < |active|
      modifies active[k], files`inventoryFile
      ensures match ConfirmEdit(old(Values(active))[k], k, option, newValue, confirmed)
        case Refused(o) =>
          outcome == o && Values(active) == old(Values(active)) && files.inventoryFile == old(files.inventoryFile)
        case Accepted(e) =>
          outcome == Success && e.index == k && Values(active) == old(Values(active))[k := e.value] && Synced()
    {
      ghost var values := Values(active);
      outcome := ShowUpdateConfirmationDialog(active[k], option, newValue, active, files, confirmed);
      forall j | 0 <= j < |active| && j != k
        ensures active[j].Value() == values[j]
      {
        assert active[j] != active[k];
      }
      assert Values(active) == values[k := active[k].Value()];
    }

    /**
      The delete listener: the confirmed item's line is appended to the deleted store, the
      object leaves the list and the inventory store is rewritten from the rest.
    */
    method SoftDelete(numberInput: Option<string>, confirmed: bool) returns (outcome: Outcome)
      requires Valid()
      modifies this`active, files`inventoryFile, files`deletedFile
      ensures Valid()
      ensures match SoftDeleteDecision(old(Values(active)), old(Decode(files.inventoryFile)), numberInput, confirmed)
        case Refused(o) =>
          outcome == o && active == old(active) && files.inventoryFile == old(files.inventoryFile)
          && files.deletedFile == old(files.deletedFile)
        case Accepted(k) =>
          outcome == Success && k < |old(active)| && active == old(active)[..k] + old(active)[k + 1..]
          && Values(active) == old(Values(active))[..k] + old(Values(active))[k + 1..]
          && files.deletedFile == old(files.deletedFile) + [FormatLine(old(Values(active))[k])]
          && Synced()
    {
      var d := SoftDeleteCheck(numberInput, confirmed);
      ValuesUnchanged(active);
      match d {
        case Refused(o) =>
          outcome := o;
        case Accepted(k) =>
          MoveToDeleted(k);
          outcome := Success;
      }
    }

    /** The delete listener's dialogs, up to and including the confirmation. */
    method SoftDeleteCheck(numberInput: Option<string>, confirmed: bool) returns (d: Decision<nat>)
      ensures d == SoftDeleteDecision(Values(active), Decode(files.inventoryFile), numberInput, confirmed)
    {
      var list := files.ReadItemsFromInventoryCSVFile();
      ValuesUnchanged(active);
      if |list| == 0 {
        return Refused(Empty);
      }
      d := LookupItem(active, numberInput);
      if d.Accepted? && !confirmed {
        d := Refused(Cancelled);
      }
    }

    /** A confirmed delete of the object at `k`. */
    method MoveToDeleted(k: nat)
      requires Valid() && k < |active|
      modifies this`active, files`inventoryFile, files`deletedFile
      ensures Valid()
      ensures active == old(active)[..k] + old(active)[k + 1..]
      ensures Values(active) == old(Values(active))[..k] + old(Values(active))[k + 1..]
      ensures files.deletedFile == old(files.deletedFile) + [FormatLine(old(Values(active))[k])]
      ensures Synced()
    {
      files.WriteDeletedItemToCSV(active[k]);
      active := RemoveAt(active, k);
      files.WriteCreatedItemToInventoryCSV(active);
      ValuesUnchanged(old(active));
      ValuesRemoveAt(old(active), k);
    }

    /**
      The permanent-delete listener: the deleted store is rewritten without the chosen item,
      or emptied.
    */
    method PermanentDelete(choice: Choice, numberInput: Option<string>, confirmed: bool) returns (outcome: Outcome)
      modifies files`deletedFile
      ensures match PermanentDeleteDecision(old(Decode(files.deletedFile)), choice, numberInput, confirmed)
        case Refused(o) => outcome == o && files.deletedFile == old(files.deletedFile)
        case Accepted(rest) => outcome == Success && files.deletedFile == Encode(rest)
    {
      var d := PermanentDeleteCheck(choice, numberInput, confirmed);
      match d {
        case Refused(o) =>
          outcome := o;
        case Accepted(rest) =>
          files.WriteItemsToDeletedItemsCSV(rest);
          outcome := Success;
      }
    }

    /**
      The permanent-delete listener's dialogs: the objects to keep in the deleted store. The
      one-item path reads the store again once the number has been typed.
    */
    method PermanentDeleteCheck(choice: Choice, numberInput: Option<string>, confirmed: bool)
      returns (d: Decision<seq<InventoryItem>>)
      ensures match PermanentDeleteDecision(Decode(files.deletedFile), choice, numberInput, confirmed)
        case Refused(o) => d == Refused(o)
        case Accepted(rest) => d.Accepted? && Values(d.value) == rest
    {
      var deletedItemsList := files.ReadItemsFromDeletedCSVFile();
      if |deletedItemsList| == 0 {
        return Refused(Empty);
      }
      match choice {
        case OneItem =>
          var number := ItemNumberInput(numberInput);
          if number.Refused? {
            return Refused(number.outcome);
          }
          deletedItemsList := files.ReadItemsFromDeletedCSVFile();
          var lookup := LookupItem(deletedItemsList, numberInput);
          if lookup.Refused? {
            return Refused(lookup.outcome);
          }
          if !confirmed {
            return Refused(Cancelled);
          }
          var rest := RemoveAt(deletedItemsList, lookup.value);
          d := Accepted(rest);
        case AllItems =>
          if !confirmed {
            return Refused(Cancelled);
          }
          d := Accepted([]);
        case CancelChoice =>
          d := Refused(Cancelled);
      }
    }

    /**
      The restore listener: the deleted store is rewritten with what stays, and each restored
      object's line is appended to the inventory store as the object joins the list. The
      store stays in step with the list when it was before.
    */
    method Restore(choice: Choice, numberInput: Option<string>, confirmed: bool) returns (outcome: Outcome)
      requires Valid()
      modifies this`active, files`inventoryFile, files`deletedFile
      ensures Valid()
      ensures old(Synced()) ==> Synced()
      ensures match RestoreDecision(old(Decode(files.deletedFile)), choice, numberInput, confirmed)
        case Refused(o) =>
          outcome == o && active == old(active) && files.inventoryFile == old(files.inventoryFile)
          && files.deletedFile == old(files.deletedFile)
        case Accepted(t) =>
          outcome == Success && |active| == |old(active)| + |t.moved| && active[..|old(active)|] == old(active)
          && (forall o :: o in active[|old(active)|..] ==> fresh(o))
          && Values(active) == old(Values(active)) + t.moved
          && files.inventoryFile == old(files.inventoryFile) + Encode(t.moved)
          && files.deletedFile == Encode(t.kept)
    {
      var d := RestoreCheck(choice, numberInput, confirmed);
      ValuesUnchanged(active);
      match d {
        case Refused(o) =>
          outcome := o;
        case Accepted(r) =>
          if choice == OneItem {
            assert r.moved == [r.moved[0]] && r.moved[0] in r.moved;
            RestoreOne(r.moved[0], r.kept);
          } else {
            RestoreAll(r.moved);
            assert r.kept == [];
          }
          assert active[..|old(active)|] == old(active) && active[|old(active)|..] == r.moved;
          outcome := Success;
      }
    }

    /** The restore listener's dialogs: the new objects to move back and those to keep. */
    method RestoreCheck(choice: Choice, numberInput: Option<string>, confirmed: bool) returns (d: Decision<Restoring>)
      ensures match RestoreDecision(Decode(files.deletedFile), choice, numberInput, confirmed)
        case Refused(o) => d == Refused(o)
        case Accepted(t) =>
          d.Accepted? && Values(d.value.moved) == t.moved && Values(d.value.kept) == t.kept
          && Distinct(d.value.moved) && forall o :: o in d.value.moved ==> fresh(o)
    {
      var deletedItemsList := files.ReadItemsFromDeletedCSVFile();
      if |deletedItemsList| == 0 {
        return Refused(Empty);
      }
      match choice {
        case OneItem =>
          var lookup := LookupItem(deletedItemsList, numberInput);
          if lookup.Refused? {
            return Refused(lookup.outcome);
          }
          var itemToRestore := deletedItemsList[lookup.value];
          assert itemToRestore in deletedItemsList;
          var rest := RemoveAt(deletedItemsList, lookup.value);
          d := Accepted(Restoring([itemToRestore], rest));
        case AllItems =>
          if !confirmed {
            return Refused(Cancelled);
          }
          d := Accepted(Restoring(deletedItemsList, []));
        case CancelChoice =>
          d := Refused(Cancelled);
      }
    }

    /**
      Restoring one item: the deleted store is rewritten with what stays, then the object's
      line is appended to the inventory store and the object joins the list.
    */
    method RestoreOne(item: InventoryItem, kept: seq<InventoryItem>)
      requires Valid() && item !in active
      modifies this`active, files`inventoryFile, files`deletedFile
      ensures Valid()
      ensures active == old(active) + [item]
      ensures Values(active) == old(Values(active)) + old(Values([item]))
      ensures files.inventoryFile == old(files.inventoryFile) + Encode(old(Values([item])))
      ensures files.deletedFile == Encode(old(Values(kept)))
      ensures old(Synced()) ==> Synced()
    {
      ghost var start := active;
      ghost var line := Encode(Values([item]));
      assert line == [FormatLine(item.Value())];
      files.WriteItemsToDeletedItemsCSV(kept);
      label written:
      files.WriteRestoredItemToCSV(item);
      assert files.deletedFile == old@written(files.deletedFile);
      active := active + [item];
      DistinctConcat(start, [item]);
      ValuesUnchanged(start);
      ValuesUnchanged([item]);
      ValuesConcat(start, [item]);
      EncodeConcat(old(Values(active)), old(Values([item])));
    }

    /**
      Restoring all items: every object's line is appended as the object joins the list, and
      the deleted store is then rewritten empty.
    */
    method RestoreAll(moved: seq<InventoryItem>)
      requires Valid() && Distinct(moved) && forall o :: o in moved ==> o !in active
      modifies this`active, files`inventoryFile, files`deletedFile
      ensures Valid()
      ensures active == old(active) + moved
      ensures Values(active) == old(Values(active)) + old(Values(moved))
      ensures files.inventoryFile == old(files.inventoryFile) + Encode(old(Values(moved)))
      ensures files.deletedFile == []
      ensures old(Synced()) ==> Synced()
    {
      ghost var start := active;
      DistinctConcat(active, moved);
      RestoreEach(moved);
      files.WriteItemsToDeletedItemsCSV([]);
      ValuesUnchanged(start);
      ValuesUnchanged(moved);
      ValuesConcat(start, moved);
      EncodeConcat(old(Values(active)), old(Values(moved)));
    }

    /** The restore-all loop: each object's line is appended, then the object is added. */
    method RestoreEach(items: seq<InventoryItem>)
      modifies this`active, files`inventoryFile
      ensures active == old(active) + items
      ensures files.inventoryFile == old(files.inventoryFile) + Encode(old(Values(items)))
    {
      ghost var start := active;
      ghost var before := files.inventoryFile;
      ghost var values := Values(items);
      for i := 0 to |items|
        invariant active == start + items[..i]
        invariant |files.inventoryFile| == |before| + i && files.inventoryFile[..|before|] == before
        invariant forall j :: 0 <= j < i ==> files.inventoryFile[|before| + j] == FormatLine(values[j])
      {
        assert items[i].Value() == values[i];
        files.WriteRestoredItemToCSV(items[i]);
        active := active + [items[i]];
        assert items[..i + 1] == items[..i] + [items[i]];
      }
      assert items[..|items|] == items;
      AppendedLines(files.inventoryFile, before, values);
    }

    /**
      The generate-report listener: nothing on an empty list, on a declined confirmation or
      on a closed sort dialog; otherwise the report of the active list under the chosen
      comparator. Writing it to the download folder is not modelled.
    */
    method GenerateReport(confirmed: bool, sortChoice: Option<string>) returns (report: Option<Listing>)
      ensures report.None? <==> (active == [] || !confirmed || sortChoice.None?)
      ensures report.Some? ==> report.value.title == ReportTitle(SortChoiceKey(sortChoice.value))
      ensures report.Some? ==> report.value.underline == ReportUnderline(SortChoiceKey(sortChoice.value))
      ensures report.Some? ==> Lists(report.value.sections, Values(active), Some(SortChoiceKey(sortChoice.value)), false)
      ensures report.Some? ==> multiset(AllRowItems(report.value.sections)) == multiset(Values(active))
    {
      if active == [] || !confirmed || sortChoice.None? {
        return None;
      }
      var reportContent := ReportContent(Values(active), SortChoiceKey(sortChoice.value));
      report := Some(reportContent);
    }
  }
}
