/**
  The inventory record: `InventoryItem`, a mutable object with five fields, and its value
  `Item`, on which the codec, the validators and the listings work.
*/
module Model {
  import opened JavaInt
  import opened Dates

  /** The five fields of an inventory record, as a value. */
  datatype Item = Item(
    itemName: string,
    quantity: Int32,
    itemNumber: Int32,
    itemType: string,
    creationDate: LocalDate)

  /** The three item types the creation dialog offers, in the order it offers them. */
  const ItemTypes: seq<string> := ["Vases", "Table Runners", "Greeneries"]

  /** The four fields the update dialog offers. */
  const UpdateOptions: seq<string> := ["Item Number", "Item Type", "Item Name", "Quantity"]

  /** How a user action ends, as the dialogs report it. */
  datatype Outcome =
    | Success    // the change was made
    | NoChange   // the new value equals the current one
    | NotFound   // no item carries the number typed in
    | Invalid    // the input failed a validation
    | Duplicate  // the new item number is already in use
    | Cancelled  // a prompt was closed or a confirmation declined
    | Empty      // the list the action works on is empty
    | Exhausted  // no free item number was drawn

  /** An inventory record whose fields the setters change in place. */
  class InventoryItem {
    var itemName: string
    var quantity: Int32
    var itemNumber: Int32
    var itemType: string
    var creationDate: LocalDate

    /** The current field values. */
    function Value(): Item
      reads this
    {
      Item(itemName, quantity, itemNumber, itemType, creationDate)
    }

    /** Stores all five arguments unchanged. */
    constructor (itemName: string, quantity: Int32, itemNumber: Int32, itemType: string, creationDate: LocalDate)
      ensures Value() == Item(itemName, quantity, itemNumber, itemType, creationDate)
    {
      this.itemName := itemName;
      this.quantity := quantity;
      this.itemNumber := itemNumber;
      this.itemType := itemType;
      this.creationDate := creationDate;
    }

    /** Each setter changes its own field and nothing else, and accepts any value. */
    method SetItemName(itemName: string)
      modifies this
      ensures Value() == old(Value()).(itemName := itemName)
    {
      this.itemName := itemName;
    }

    method SetQuantity(quantity: Int32)
      modifies this
      ensures Value() == old(Value()).(quantity := quantity)
    {
      this.quantity := quantity;
    }

    method SetItemNumber(itemNumber: Int32)
      modifies this
      ensures Value() == old(Value()).(itemNumber := itemNumber)
    {
      this.itemNumber := itemNumber;
    }

    method SetItemType(itemType: string)
      modifies this
      ensures Value() == old(Value()).(itemType := itemType)
    {
      this.itemType := itemType;
    }

    method SetCreationDate(creationDate: LocalDate)
      modifies this
      ensures Value() == old(Value()).(creationDate := creationDate)
    {
      this.creationDate := creationDate;
    }
  }

  /** The values held by a list of objects, in list order. */
  function Values(items: seq<InventoryItem>): (r: seq<Item>)
    reads items
    ensures |r| == |items|
    ensures forall i {:trigger r[i]} :: 0 <= i < |items| ==> r[i] == items[i].Value()
  {
    if items == [] then [] else [items[0].Value()] + Values(items[1..])
  }

  /** No object occurs twice in the list. */
  predicate Distinct(items: seq<InventoryItem>) {
    forall i, j :: 0 <= i < j < |items| ==> items[i] != items[j]
  }

  /** Objects whose fields were not written still hold the values they held. */
  twostate lemma ValuesUnchanged(items: seq<InventoryItem>)
    requires unchanged(items)
    ensures Values(items) == old(Values(items))
  {
    forall i | 0 <= i < |items|
      ensures Values(items)[i] == old(Values(items))[i]
    {
      assert Values(items)[i] == items[i].Value();
    }
  }

  lemma ValuesAppend(items: seq<InventoryItem>, obj: InventoryItem)
    ensures Values(items + [obj]) == Values(items) + [obj.Value()]
  {
  }

  /** Removing a position removes that value. */
  lemma ValuesRemoveAt(items: seq<InventoryItem>, k: nat)
    requires k < |items|
    ensures Values(items[..k] + items[k + 1..]) == Values(items)[..k] + Values(items)[k + 1..]
  {
    var rest, values := items[..k] + items[k + 1..], Values(items);
    var removed := values[..k] + values[k + 1..];
    forall j | 0 <= j < |rest|
      ensures Values(rest)[j] == removed[j]
    {
      ValueAfterRemoval(items, k, j);
    }
  }

  lemma ValueAfterRemoval(items: seq<InventoryItem>, k: nat, j: nat)
    requires k < |items| && j < |items| - 1
    ensures Values(items[..k] + items[k + 1..])[j] == (Values(items)[..k] + Values(items)[k + 1..])[j]
  {
    var j' := if j < k then j else j + 1;
    assert (items[..k] + items[k + 1..])[j] == items[j'];
    assert (Values(items)[..k] + Values(items)[k + 1..])[j] == Values(items)[j'];
  }

  /** Removing a position keeps the remaining objects distinct. */
  lemma DistinctRemoveAt(items: seq<InventoryItem>, k: nat)
    requires k < |items| && Distinct(items)
    ensures Distinct(items[..k] + items[k + 1..])
  {
    var rest := items[..k] + items[k + 1..];
    forall i, j | 0 <= i < j < |rest|
      ensures rest[i] != rest[j]
    {
      var i' := if i < k then i else i + 1;
      var j' := if j < k then j else j + 1;
      assert rest[i] == items[i'] && rest[j] == items[j'];
    }
  }

  lemma ValuesConcat(a: seq<InventoryItem>, b: seq<InventoryItem>)
    ensures Values(a + b) == Values(a) + Values(b)
  {
    assert forall j :: 0 <= j < |a + b| ==> Values(a + b)[j] == (Values(a) + Values(b))[j];
  }

  /** Two lists of distinct objects that share none join into a list of distinct objects. */
  lemma DistinctConcat(a: seq<InventoryItem>, b: seq<InventoryItem>)
    requires Distinct(a) && Distinct(b) && forall o :: o in b ==> o !in a
    ensures Distinct(a + b)
  {
    forall i, j | 0 <= i < j < |a + b|
      ensures (a + b)[i] != (a + b)[j]
    {
      if j >= |a| {
        assert (a + b)[j] == b[j - |a|] && b[j - |a|] in b;
        if i < |a| {
          assert (a + b)[i] == a[i] && a[i] in a;
        }
      }
    }
  }

  /** `list.add(new InventoryItem(...))`: a new object holding `item`, added at the end. */
  method AppendNew(items: seq<InventoryItem>, item: Item) returns (result: seq<InventoryItem>)
    requires Distinct(items)
    ensures |result| == |items| + 1 && result == items + [result[|items|]] && fresh(result[|items|])
    ensures Distinct(result)
    ensures Values(result) == old(Values(items)) + [item]
  {
    var obj := new InventoryItem(item.itemName, item.quantity, item.itemNumber, item.itemType,
      item.creationDate);
    ValuesAppend(items, obj);
    result := items + [obj];
  }

  /** A getter read after its setter gives back the value set, whatever it is. */
  method SetThenGet(obj: InventoryItem, quantity: Int32, itemNumber: Int32)
    returns (q: Int32, n: Int32)
    modifies obj
    ensures q == quantity && n == itemNumber
    ensures obj.Value() == old(obj.Value()).(quantity := quantity, itemNumber := itemNumber)
  {
    obj.SetQuantity(quantity);
    obj.SetItemNumber(itemNumber);
    q := obj.quantity;
    n := obj.itemNumber;
  }
}
