/**
  `PromptForUpdateConfirmation`: the last step of an update. After a confirmation the selected
  field of the selected item is set and the inventory store is rewritten from the whole list.
*/
module PromptForUpdateConfirmation {
  import opened Wrappers
  import opened JavaInt
  import opened Model
  import opened CsvHandler

  /**
    The switch on the option: the item with the named field set to the new value, the number
    fields going through `Integer.parseInt`. `None` is the `NumberFormatException`; an option
    the switch does not know leaves the item as it is.
  */
  function ApplyUpdate(item: Item, option: string, newValue: string): Option<Item> {
    match option
    case "Item Number" =>
      (match ParseInt(newValue)
       case None => None
       case Some(n) => Some(item.(itemNumber := n)))
    case "Item Type" => Some(item.(itemType := newValue))
    case "Item Name" => Some(item.(itemName := newValue))
    case "Quantity" =>
      (match ParseInt(newValue)
       case None => None
       case Some(n) => Some(item.(quantity := n)))
    case _ => Some(item)
  }

  /**
    `showUpdateConfirmationDialog`, with the user's answer as `confirmed`. Declining changes
    nothing. A number that does not parse throws before any change (`Invalid`). Otherwise the
    field is set and the store is rewritten from the list.
  */
  method ShowUpdateConfirmationDialog(selectedItem: InventoryItem, selectedOption: string,
    newValue: string, list: seq<InventoryItem>, files: CsvFiles, confirmed: bool)
    returns (outcome: Outcome)
    modifies selectedItem, files`inventoryFile
    ensures outcome == Success || outcome == Cancelled || outcome == Invalid
    ensures outcome == Cancelled <==> !confirmed
    ensures confirmed ==> (outcome == Invalid <==> ApplyUpdate(old(selectedItem.Value()), selectedOption, newValue).None?)
    ensures outcome != Success ==>
      selectedItem.Value() == old(selectedItem.Value()) && files.inventoryFile == old(files.inventoryFile)
    ensures outcome == Success ==>
      Some(selectedItem.Value()) == ApplyUpdate(old(selectedItem.Value()), selectedOption, newValue)
      && files.inventoryFile == Encode(Values(list))
  {
    if !confirmed {
      return Cancelled;
    }
    var parsed := SetSelectedField(selectedItem, selectedOption, newValue);
    if !parsed {
      return Invalid;
    }
    files.WriteCreatedItemToInventoryCSV(list);
    outcome := Success;
  }

  /** The switch on the option, each case calling its setter (or throwing before it). */
  method SetSelectedField(selectedItem: InventoryItem, selectedOption: string, newValue: string)
    returns (parsed: bool)
    modifies selectedItem
    ensures parsed <==> ApplyUpdate(old(selectedItem.Value()), selectedOption, newValue).Some?
    ensures parsed ==> Some(selectedItem.Value()) == ApplyUpdate(old(selectedItem.Value()), selectedOption, newValue)
    ensures !parsed ==> selectedItem.Value() == old(selectedItem.Value())
  {
    parsed := true;
    match selectedOption {
      case "Item Number" =>
        var n := ParseInt(newValue);
        if n.None? {
          return false;
        }
        selectedItem.SetItemNumber(n.value);
      case "Item Type" =>
        selectedItem.SetItemType(newValue);
      case "Item Name" =>
        selectedItem.SetItemName(newValue);
      case "Quantity" =>
        var n := ParseInt(newValue);
        if n.None? {
          return false;
        }
        selectedItem.SetQuantity(n.value);
      case _ =>
    }
  }

  /** A successful update changes the field the option names and no other field. */
  lemma ApplyUpdateChangesOneField(item: Item, option: string, newValue: string)
    requires ApplyUpdate(item, option, newValue).Some?
    ensures var r := ApplyUpdate(item, option, newValue).value;
      r.creationDate == item.creationDate
      && (option != "Item Name" ==> r.itemName == item.itemName)
      && (option != "Quantity" ==> r.quantity == item.quantity)
      && (option != "Item Number" ==> r.itemNumber == item.itemNumber)
      && (option != "Item Type" ==> r.itemType == item.itemType)
  {
  }

  /** The named field takes the new value; an unknown option leaves the item unchanged. */
  lemma ApplyUpdateSetsField(item: Item, option: string, newValue: string)
    requires ApplyUpdate(item, option, newValue).Some?
    ensures var r := ApplyUpdate(item, option, newValue).value;
      (option == "Item Name" ==> r.itemName == newValue)
      && (option == "Item Type" ==> r.itemType == newValue)
      && (option == "Item Number" ==> ParseInt(newValue) == Some(r.itemNumber))
      && (option == "Quantity" ==> ParseInt(newValue) == Some(r.quantity))
      && (option !in UpdateOptions ==> r == item)
  {
  }

  /** Only the two number fields can fail, and only on text `parseInt` rejects. */
  lemma ApplyUpdateFails(item: Item, option: string, newValue: string)
    ensures ApplyUpdate(item, option, newValue).None?
        <==> (option == "Item Number" || option == "Quantity") && ParseInt(newValue).None?
  {
  }

  /**
    The update dialog hands over numbers as `Integer.toString` prints them, and such a text
    always parses back to the same number.
  */
  lemma ApplyUpdatePrintedNumber(item: Item, option: string, n: Int32)
    requires option == "Item Number" || option == "Quantity"
    ensures ApplyUpdate(item, option, IntToString(n))
        == Some(if option == "Item Number" then item.(itemNumber := n) else item.(quantity := n))
  {
    ParseIntToString(n);
  }
}
