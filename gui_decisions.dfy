/**
  The validation chains of the button listeners of `GUIComponentInitializer`, as functions of
  the dialog answers. Each listener is a chain of early returns; a decision is either the
  outcome at which the chain stops (`Refused`) or the change it goes on to make (`Accepted`).
  The listener methods in `GuiComponents` follow the same chains and are proved to act
  exactly as these decisions say.
*/
module GuiDecisions {
  import opened Wrappers
  import opened JavaInt
  import opened JavaText
  import opened Dates
  import opened Model
  import opened CsvHandler
  import opened DataValidator
  import opened DataValidatorForUpdates
  import opened RandomNumberGenerator
  import opened PromptForUpdateConfirmation

  /** Where a listener's chain of checks ends. */
  datatype Decision<T> = Refused(outcome: Outcome) | Accepted(value: T)

  /** The one-or-all option dialog of permanent delete and restore; closing it is Cancel. */
  datatype Choice = OneItem | AllItems | CancelChoice

  /** A confirmed update: the position of the selected item and its new value. */
  datatype Edit = Edit(index: nat, value: Item)

  /** What a restore moves back into the inventory and what stays in the deleted list. */
  datatype Transfer = Transfer(moved: seq<Item>, kept: seq<Item>)

  /** `s.matches("-?\\d+")` */
  predicate MatchesSignedDigits(s: string) {
    MatchesDigits(s) || (|s| >= 2 && s[0] == '-' && MatchesDigits(s[1..]))
  }

  /**
    The item-number prompt of update, delete, permanent delete and restore: closed is
    Cancelled; the normalised text must be non-empty and all digits, and `parseInt` must
    accept it (an overflow is caught as an invalid entry).
  */
  function ItemNumberInput(input: Option<string>): Decision<Int32> {
    if input.None? then Refused(Cancelled)
    else
      var text := Normalize(input.value);
      if text == [] then Refused(Invalid)
      else if !MatchesDigits(text) then Refused(Invalid)
      else
        match ParseInt(text)
        case None => Refused(Invalid)
        case Some(n) => Accepted(n)
  }

  /** The lookup loops: the first position whose item carries the number. */
  function FirstIndexOf(values: seq<Item>, n: int): (r: Option<nat>)
    ensures r.Some? ==> r.value < |values| && values[r.value].itemNumber == n
    ensures r.Some? ==> forall k :: 0 <= k < r.value ==> values[k].itemNumber != n
    ensures r.None? ==> forall k :: 0 <= k < |values| ==> values[k].itemNumber != n
  {
    if values == [] then None
    else if values[0].itemNumber == n then Some(0)
    else
      var rest := FirstIndexOf(values[1..], n);
      assert forall k :: 0 < k < |values| ==> values[k] == values[1..][k - 1];
      match rest
      case None => None
      case Some(k) => Some(k + 1)
  }

  /** The item-number prompt followed by the lookup loop: the position of the item named. */
  function LookupInput(values: seq<Item>, numberInput: Option<string>): (r: Decision<nat>)
    ensures r.Accepted? ==> r.value < |values|
  {
    match ItemNumberInput(numberInput)
    case Refused(o) => Refused(o)
    case Accepted(n) =>
      match FirstIndexOf(values, n)
      case None => Refused(NotFound)
      case Some(k) => Accepted(k)
  }

  /** The name prompt of the create listener: normalised, then `isValidateStringInput`. */
  function NameInput(nameInput: Option<string>): Decision<string> {
    if IsInputNull(nameInput) then Refused(Cancelled)
    else
      var itemName := Normalize(nameInput.value);
      if IsInputEmpty(itemName) || !IsValidItemName(itemName) then Refused(Invalid)
      else Accepted(itemName)
  }

  /**
    The quantity prompt of the create listener: normalised, `isValidateQuantityInput`, then
    `parseInt` (an overflow is caught as invalid) and `isPositiveQuantity`.
  */
  function QuantityInput(quantityInput: Option<string>): Decision<Int32> {
    if IsInputNull(quantityInput) then Refused(Cancelled)
    else
      var quantityText := Normalize(quantityInput.value);
      if IsInputEmpty(quantityText) || !IsQuantityInputValid(quantityText) then Refused(Invalid)
      else
        match ParseInt(quantityText)
        case None => Refused(Invalid)
        case Some(quantity) => if !IsPositiveQuantity(quantity) then Refused(Invalid) else Accepted(quantity)
  }

  /**
    The create listener: the name prompt, the quantity prompt, the type dropdown, the number
    generator and the confirmation, in that order.
  */
  function CreateDecision(values: seq<Item>, nameInput: Option<string>, quantityInput: Option<string>,
    typeInput: Option<string>, draws: seq<int>, today: LocalDate, confirmed: bool): Decision<Item>
    requires ValidDraws(draws)
  {
    match NameInput(nameInput)
    case Refused(o) => Refused(o)
    case Accepted(itemName) =>
      match QuantityInput(quantityInput)
      case Refused(o) => Refused(o)
      case Accepted(quantity) =>
        if IsInputNull(typeInput) then Refused(Cancelled)
        else
          var itemType := typeInput.value;
          match FirstFreeDraw(BaseNumber(itemType), ExistingItemNumbers(values, itemType), draws)
          case None => Refused(Exhausted)
          case Some(itemNumber) =>
            GeneratedNumberInRange(itemType, values, draws);
            if !confirmed then Refused(Cancelled)
            else Accepted(Item(itemName, quantity, itemNumber, itemType, today))
  }

  /**
    The "Item Number" case: normalised, non-empty, parsed; then in range for the item's
    current type, different from its number, and used by no active item.
  */
  function NumberFieldValue(values: seq<Item>, selected: Item, input: Option<string>): Decision<string> {
    if input.None? then Refused(Cancelled)
    else
      var text := Normalize(input.value);
      if text == [] then Refused(Invalid)
      else
        match ParseInt(text)
        case None => Refused(Invalid)
        case Some(m) =>
          if !IsUpdatedItemNumberValid(selected.itemType, m) then Refused(Invalid)
          else if IsUpdatedItemNumberDuplicate(selected, m) then Refused(NoChange)
          else if DoesUpdatedItemNumberExist(values, m) then Refused(Duplicate)
          else Accepted(IntToString(m))
  }

  /** The "Item Type" case: any type but the current one. */
  function TypeFieldValue(selected: Item, input: Option<string>): Decision<string> {
    if input.None? then Refused(Cancelled)
    else if IsSameItemType(selected, input.value) then Refused(NoChange)
    else Accepted(input.value)
  }

  /** The "Item Name" case: normalised; then empty, same as now, and the characters, in that order. */
  function NameFieldValue(selected: Item, input: Option<string>): Decision<string> {
    if input.None? then Refused(Cancelled)
    else
      var text := Normalize(input.value);
      if IsUpdatedItemNameEmpty(text) then Refused(Invalid)
      else if IsSameItemName(selected, text) then Refused(NoChange)
      else if !MatchesNameChars(text) then Refused(Invalid)
      else Accepted(text)
  }

  /** The "Quantity" case: normalised, non-empty, `-?\d+`, parsed, and not the current quantity. */
  function QuantityFieldValue(selected: Item, input: Option<string>): Decision<string> {
    if input.None? then Refused(Cancelled)
    else
      var text := Normalize(input.value);
      if text == [] then Refused(Invalid)
      else if !MatchesSignedDigits(text) then Refused(Invalid)
      else
        match ParseInt(text)
        case None => Refused(Invalid)
        case Some(q) => if IsSameQuantity(selected, q) then Refused(NoChange) else Accepted(IntToString(q))
  }

  /**
    The update switch: the text handed to the confirmation dialog for the option, or where
    its case stops. The switch has no default case: an option outside the four matches no
    case, so nothing changes and no message is shown; the model reports that as NoChange.
  */
  function FieldValue(values: seq<Item>, selected: Item, option: string, input: Option<string>)
    : Decision<string>
  {
    if option == "Item Number" then NumberFieldValue(values, selected, input)
    else if option == "Item Type" then TypeFieldValue(selected, input)
    else if option == "Item Name" then NameFieldValue(selected, input)
    else if option == "Quantity" then QuantityFieldValue(selected, input)
    else Refused(NoChange)
  }

  /** The four option names are different strings, so each selects its own case. */
  lemma FieldValueCases(values: seq<Item>, selected: Item, input: Option<string>)
    ensures FieldValue(values, selected, "Item Number", input) == NumberFieldValue(values, selected, input)
    ensures FieldValue(values, selected, "Item Type", input) == TypeFieldValue(selected, input)
    ensures FieldValue(values, selected, "Item Name", input) == NameFieldValue(selected, input)
    ensures FieldValue(values, selected, "Quantity", input) == QuantityFieldValue(selected, input)
  {
    var number, itemType, name, quantity := "Item Number", "Item Type", "Item Name", "Quantity";
    assert |number| == 11 && |itemType| == 9 && |name| == 9 && |quantity| == 8;
    assert itemType[5] != name[5];
    assert FieldValue(values, selected, number, input) == NumberFieldValue(values, selected, input);
    assert FieldValue(values, selected, itemType, input) == TypeFieldValue(selected, input);
    assert FieldValue(values, selected, name, input) == NameFieldValue(selected, input);
  }

  /**
    The confirmation dialog of an update with the new value's text: declining is Cancelled,
    a number text `parseInt` rejects is Invalid, otherwise the item at `k` takes its new value.
  */
  function ConfirmEdit(item: Item, k: nat, option: string, text: string, confirmed: bool): Decision<Edit> {
    if !confirmed then Refused(Cancelled)
    else
      match ApplyUpdate(item, option, text)
      case None => Refused(Invalid)
      case Some(v) => Accepted(Edit(k, v))
  }

  /** The selected field's case, then the confirmation dialog, for the item at `k`. */
  function UpdateField(values: seq<Item>, k: nat, option: string, newValueInput: Option<string>,
    confirmed: bool): Decision<Edit>
    requires k < |values|
  {
    match FieldValue(values, values[k], option, newValueInput)
    case Refused(o) => Refused(o)
    case Accepted(text) => ConfirmEdit(values[k], k, option, text, confirmed)
  }

  /**
    The update listener: the store must hold items, the number must name an active item,
    and a field must be chosen before its case runs.
  */
  function UpdateDecision(values: seq<Item>, stored: seq<Item>, numberInput: Option<string>,
    option: Option<string>, newValueInput: Option<string>, confirmed: bool): Decision<Edit>
  {
    if |stored| == 0 then Refused(Empty)
    else
      match LookupInput(values, numberInput)
      case Refused(o) => Refused(o)
      case Accepted(k) =>
        if option.None? then Refused(Cancelled)
        else UpdateField(values, k, option.value, newValueInput, confirmed)
  }

  /** The delete listener: the position of the active item to move to the deleted store. */
  function SoftDeleteDecision(values: seq<Item>, stored: seq<Item>, numberInput: Option<string>,
    confirmed: bool): Decision<nat>
  {
    if |stored| == 0 then Refused(Empty)
    else
      match LookupInput(values, numberInput)
      case Refused(o) => Refused(o)
      case Accepted(k) => if !confirmed then Refused(Cancelled) else Accepted(k)
  }

  /** The permanent-delete listener: the deleted list that remains. */
  function PermanentDeleteDecision(deleted: seq<Item>, choice: Choice, numberInput: Option<string>,
    confirmed: bool): Decision<seq<Item>>
  {
    if |deleted| == 0 then Refused(Empty)
    else
      match choice
      case OneItem =>
        (match LookupInput(deleted, numberInput)
         case Refused(o) => Refused(o)
         case Accepted(k) => if !confirmed then Refused(Cancelled) else Accepted(deleted[..k] + deleted[k + 1..]))
      case AllItems => if !confirmed then Refused(Cancelled) else Accepted([])
      case CancelChoice => Refused(Cancelled)
  }

  /**
    The restore listener. Restoring one item asks for no confirmation and does not look at
    the active list, so nothing prevents a restored number from clashing with an active one.
  */
  function RestoreDecision(deleted: seq<Item>, choice: Choice, numberInput: Option<string>,
    confirmed: bool): Decision<Transfer>
  {
    if |deleted| == 0 then Refused(Empty)
    else
      match choice
      case OneItem =>
        (match LookupInput(deleted, numberInput)
         case Refused(o) => Refused(o)
         case Accepted(k) => Accepted(Transfer([deleted[k]], deleted[..k] + deleted[k + 1..])))
      case AllItems => if !confirmed then Refused(Cancelled) else Accepted(Transfer(deleted, []))
      case CancelChoice => Refused(Cancelled)
  }

  /** No two items carry the same number. */
  predicate UniqueNumbers(values: seq<Item>) {
    forall i, j :: 0 <= i < j < |values| ==> values[i].itemNumber != values[j].itemNumber
  }

  // ---------------------------------------------------------------------------------------
  // What the decisions promise
  // ---------------------------------------------------------------------------------------

  /**
    An item number is accepted exactly when the normalised text is a run of digits that
    `parseInt` reads; the number is then never negative.
  */
  lemma ItemNumberInputAccepted(input: Option<string>, n: Int32)
    ensures ItemNumberInput(input) == Accepted(n)
        <==> (input.Some? && Normalize(input.value) != [] && AllDigits(Normalize(input.value))
              && ParseInt(Normalize(input.value)) == Some(n))
    ensures ItemNumberInput(input) == Accepted(n) ==> n >= 0
  {
  }

  /** Both item-number scans agree: a number exists exactly when the lookup finds it. */
  lemma ExistsIffFound(values: seq<Item>, n: int)
    ensures DoesUpdatedItemNumberExist(values, n) <==> FirstIndexOf(values, n).Some?
  {
  }

  /** A lookup lands on the first item carrying the number typed in. */
  lemma LookupInputAccepted(values: seq<Item>, numberInput: Option<string>)
    requires LookupInput(values, numberInput).Accepted?
    ensures var k := LookupInput(values, numberInput).value;
      k < |values| && ItemNumberInput(numberInput) == Accepted(values[k].itemNumber)
      && forall j :: 0 <= j < k ==> values[j].itemNumber != values[k].itemNumber
  {
  }

  /** A number no item carries is reported as not found by every lookup. */
  lemma AbsentNumberNotFound(values: seq<Item>, stored: seq<Item>, numberInput: Option<string>,
    option: Option<string>, newValueInput: Option<string>, confirmed: bool)
    requires stored != [] && ItemNumberInput(numberInput).Accepted?
    requires forall j :: 0 <= j < |values| ==> values[j].itemNumber != ItemNumberInput(numberInput).value
    ensures UpdateDecision(values, stored, numberInput, option, newValueInput, confirmed) == Refused(NotFound)
    ensures SoftDeleteDecision(values, stored, numberInput, confirmed) == Refused(NotFound)
    ensures values != [] ==> PermanentDeleteDecision(values, OneItem, numberInput, confirmed) == Refused(NotFound)
    ensures values != [] ==> RestoreDecision(values, OneItem, numberInput, confirmed) == Refused(NotFound)
  {
    assert FirstIndexOf(values, ItemNumberInput(numberInput).value) == None;
    assert LookupInput(values, numberInput) == Refused(NotFound);
  }

  /**
    A created item holds the normalised, valid name, a parsed quantity of at least 1, the
    chosen type, today's date and a number in the type's block that no item of that type
    holds; and it is only created after the confirmation.
  */
  lemma CreateAccepted(values: seq<Item>, nameInput: Option<string>, quantityInput: Option<string>,
    typeInput: Option<string>, draws: seq<int>, today: LocalDate, confirmed: bool)
    requires ValidDraws(draws)
    requires CreateDecision(values, nameInput, quantityInput, typeInput, draws, today, confirmed).Accepted?
    ensures var item := CreateDecision(values, nameInput, quantityInput, typeInput, draws, today, confirmed).value;
      confirmed && nameInput.Some? && quantityInput.Some? && typeInput.Some?
      && item.itemName == Normalize(nameInput.value) && IsValidItemName(item.itemName)
      && ParseInt(Normalize(quantityInput.value)) == Some(item.quantity) && item.quantity >= 1
      && item.itemType == typeInput.value && item.creationDate == today
      && BaseNumber(item.itemType) <= item.itemNumber < BaseNumber(item.itemType) + 100
      && forall j :: 0 <= j < |values| && values[j].itemType == item.itemType ==>
           values[j].itemNumber != item.itemNumber
  {
    var itemType := typeInput.value;
    var k := FirstFreeDrawSome(BaseNumber(itemType), ExistingItemNumbers(values, itemType), draws);
  }

  /**
    An item created with one of the offered types can be written to the store and read back
    unchanged, and its number is one the update validator accepts for its type.
  */
  lemma CreatedItemIsStorable(values: seq<Item>, nameInput: Option<string>, quantityInput: Option<string>,
    typeInput: Option<string>, draws: seq<int>, today: LocalDate, confirmed: bool)
    requires ValidDraws(draws)
    requires CreateDecision(values, nameInput, quantityInput, typeInput, draws, today, confirmed).Accepted?
    requires typeInput.Some? && typeInput.value in ItemTypes
    ensures var item := CreateDecision(values, nameInput, quantityInput, typeInput, draws, today, confirmed).value;
      WellFormed(item) && ParseLine(FormatLine(item)) == Parsed(item)
      && IsUpdatedItemNumberValid(item.itemType, item.itemNumber)
  {
    var item := CreateDecision(values, nameInput, quantityInput, typeInput, draws, today, confirmed).value;
    CreateAccepted(values, nameInput, quantityInput, typeInput, draws, today, confirmed);
    NormalizedValidNameIsPlain(nameInput.value);
    assert IsFieldText(item.itemName);
    KnownTypesAreFieldText(item.itemType);
    BaseBlockIsValidatorRange(item.itemType, item.itemNumber);
    LineRoundTrip(item);
  }

  /** The offered type names hold no comma and no line break. */
  lemma KnownTypesAreFieldText(itemType: string)
    requires itemType in ItemTypes
    ensures IsFieldText(itemType) && itemType != ""
  {
    assert ItemTypes == ["Vases", "Table Runners", "Greeneries"];
  }

  /** Declining the confirmation never lets an item be created. */
  lemma DeclinedCreate(values: seq<Item>, nameInput: Option<string>, quantityInput: Option<string>,
    typeInput: Option<string>, draws: seq<int>, today: LocalDate)
    requires ValidDraws(draws)
    ensures CreateDecision(values, nameInput, quantityInput, typeInput, draws, today, false).Refused?
  {
  }

  /** Declining the confirmation never lets an update through. */
  lemma DeclinedUpdate(values: seq<Item>, stored: seq<Item>, numberInput: Option<string>,
    option: Option<string>, newValueInput: Option<string>)
    ensures UpdateDecision(values, stored, numberInput, option, newValueInput, false).Refused?
  {
  }

  /** Declining the confirmation never lets an item be deleted, softly or permanently. */
  lemma DeclinedDelete(values: seq<Item>, stored: seq<Item>, deleted: seq<Item>,
    numberInput: Option<string>, choice: Choice)
    ensures SoftDeleteDecision(values, stored, numberInput, false).Refused?
    ensures PermanentDeleteDecision(deleted, choice, numberInput, false).Refused?
  {
  }

  /** Only restoring one item asks for no confirmation. */
  lemma DeclinedRestoreAll(deleted: seq<Item>, choice: Choice, numberInput: Option<string>)
    requires choice != OneItem
    ensures RestoreDecision(deleted, choice, numberInput, false).Refused?
  {
  }

  /**
    An accepted update changes one item, the first carrying the typed number, and only
    after a field was chosen and the change confirmed; the creation date never changes.
  */
  lemma UpdateAcceptedAt(values: seq<Item>, stored: seq<Item>, numberInput: Option<string>,
    option: Option<string>, newValueInput: Option<string>, confirmed: bool)
    requires UpdateDecision(values, stored, numberInput, option, newValueInput, confirmed).Accepted?
    ensures var e := UpdateDecision(values, stored, numberInput, option, newValueInput, confirmed).value;
      confirmed && stored != [] && option.Some? && option.value in UpdateOptions
      && e.index < |values| && ItemNumberInput(numberInput) == Accepted(values[e.index].itemNumber)
      && (forall j :: 0 <= j < e.index ==> values[j].itemNumber != values[e.index].itemNumber)
      && e.value.creationDate == values[e.index].creationDate
  {
    LookupInputAccepted(values, numberInput);
    var k := LookupInput(values, numberInput).value;
    var text := FieldValue(values, values[k], option.value, newValueInput).value;
    ApplyUpdateChangesOneField(values[k], option.value, text);
  }

  /**
    A new item number is taken only if it lies in the block of the item's type, differs
    from its current number and from every active item's number; only the number changes.
  */
  lemma UpdateNumberAccepted(values: seq<Item>, stored: seq<Item>, numberInput: Option<string>,
    newValueInput: Option<string>, confirmed: bool)
    requires UpdateDecision(values, stored, numberInput, Some("Item Number"), newValueInput, confirmed).Accepted?
    ensures var e := UpdateDecision(values, stored, numberInput, Some("Item Number"), newValueInput, confirmed).value;
      e.index < |values| && e.value == values[e.index].(itemNumber := e.value.itemNumber)
      && IsUpdatedItemNumberValid(e.value.itemType, e.value.itemNumber)
      && forall j :: 0 <= j < |values| ==> values[j].itemNumber != e.value.itemNumber
  {
    var k := LookupInput(values, numberInput).value;
    NumberFieldAccepted(values, k, newValueInput, confirmed);
  }

  /** The "Item Number" case and the confirmation, for the item at `k`. */
  lemma NumberFieldAccepted(values: seq<Item>, k: nat, newValueInput: Option<string>, confirmed: bool)
    requires k < |values| && UpdateField(values, k, "Item Number", newValueInput, confirmed).Accepted?
    ensures var e := UpdateField(values, k, "Item Number", newValueInput, confirmed).value;
      e.index == k && e.value == values[k].(itemNumber := e.value.itemNumber)
      && IsUpdatedItemNumberValid(e.value.itemType, e.value.itemNumber)
      && forall j :: 0 <= j < |values| ==> values[j].itemNumber != e.value.itemNumber
  {
    FieldValueCases(values, values[k], newValueInput);
    var m := ParseInt(Normalize(newValueInput.value)).value;
    assert NumberFieldValue(values, values[k], newValueInput) == Accepted(IntToString(m));
    ApplyUpdatePrintedNumber(values[k], "Item Number", m);
  }

  /** Updating never gives two active items the same number. */
  lemma UpdateKeepsNumbersUnique(values: seq<Item>, stored: seq<Item>, numberInput: Option<string>,
    option: Option<string>, newValueInput: Option<string>, confirmed: bool)
    requires UniqueNumbers(values)
    requires UpdateDecision(values, stored, numberInput, option, newValueInput, confirmed).Accepted?
    ensures var e := UpdateDecision(values, stored, numberInput, option, newValueInput, confirmed).value;
      e.index < |values| && UniqueNumbers(values[e.index := e.value])
  {
    var e := UpdateDecision(values, stored, numberInput, option, newValueInput, confirmed).value;
    UpdateAcceptedAt(values, stored, numberInput, option, newValueInput, confirmed);
    if option.value == "Item Number" {
      UpdateNumberAccepted(values, stored, numberInput, newValueInput, confirmed);
    } else {
      ApplyUpdateChangesOneField(values[e.index], option.value,
        FieldValue(values, values[e.index], option.value, newValueInput).value);
    }
  }

  /**
    Changing the type does not re-check the number: any other type is taken with the number
    kept, so a number valid for the old type ends up outside the new type's block.
  */
  lemma TypeChangeKeepsNumber(values: seq<Item>, k: nat, newType: string)
    requires k < |values| && newType != values[k].itemType
    ensures UpdateField(values, k, "Item Type", Some(newType), true)
        == Accepted(Edit(k, values[k].(itemType := newType)))
    ensures IsUpdatedItemNumberValid(values[k].itemType, values[k].itemNumber)
        ==> !IsUpdatedItemNumberValid(newType, values[k].itemNumber)
  {
    FieldValueCases(values, values[k], Some(newType));
    if IsUpdatedItemNumberValid(values[k].itemType, values[k].itemNumber)
      && IsUpdatedItemNumberValid(newType, values[k].itemNumber) {
      ItemNumberRangesDisjoint(values[k].itemType, newType, values[k].itemNumber);
    }
  }

  /**
    The name case checks for no change before it checks the characters: retyping a current
    name that the validator would reject is reported as no change, not as invalid.
  */
  lemma SameNameBeforeCharset(values: seq<Item>, selected: Item, input: string)
    requires Normalize(input) == selected.itemName && selected.itemName != []
    requires !MatchesNameChars(selected.itemName)
    ensures FieldValue(values, selected, "Item Name", Some(input)) == Refused(NoChange)
  {
    FieldValueCases(values, selected, Some(input));
  }

  /** The text of an int passes the quantity case's `-?\d+` check. */
  lemma PrintedIntIsSignedDigits(q: int)
    ensures MatchesSignedDigits(IntToString(q))
  {
    var s := IntToString(q);
    IntToStringShape(q);
    if q < 0 {
      assert s[1..] == NatToString(-q);
      NatToStringValue(-q);
    }
  }

  /**
    The quantity case takes any int but the current quantity, zero and negative ones
    included, and the confirmation dialog then stores exactly that int.
  */
  lemma QuantityTakesAnyInt(values: seq<Item>, selected: Item, q: Int32)
    requires q != selected.quantity
    ensures FieldValue(values, selected, "Quantity", Some(IntToString(q))) == Accepted(IntToString(q))
    ensures ApplyUpdate(selected, "Quantity", IntToString(q)) == Some(selected.(quantity := q))
  {
    FieldValueCases(values, selected, Some(IntToString(q)));
    IntToStringShape(q);
    NormalizeVisible(IntToString(q));
    PrintedIntIsSignedDigits(q);
    ParseIntToString(q);
    ApplyUpdatePrintedNumber(selected, "Quantity", q);
  }

  /** A soft delete takes the first active item carrying the typed number, once confirmed. */
  lemma SoftDeleteAccepted(values: seq<Item>, stored: seq<Item>, numberInput: Option<string>,
    confirmed: bool)
    requires SoftDeleteDecision(values, stored, numberInput, confirmed).Accepted?
    ensures var k := SoftDeleteDecision(values, stored, numberInput, confirmed).value;
      confirmed && stored != [] && k < |values|
      && ItemNumberInput(numberInput) == Accepted(values[k].itemNumber)
      && forall j :: 0 <= j < k ==> values[j].itemNumber != values[k].itemNumber
  {
    LookupInputAccepted(values, numberInput);
  }

  /** Taking out the element at `k` keeps every other element. */
  lemma RemoveAtMultiset(s: seq<Item>, k: nat)
    requires k < |s|
    ensures multiset(s[..k] + s[k + 1..]) + multiset{s[k]} == multiset(s)
  {
    assert s == s[..k] + [s[k]] + s[k + 1..];
  }

  /**
    Permanent delete of one item removes exactly one item, the first carrying the number,
    and only after the confirmation.
  */
  lemma PermanentDeleteOne(deleted: seq<Item>, numberInput: Option<string>, confirmed: bool)
    returns (k: nat)
    requires PermanentDeleteDecision(deleted, OneItem, numberInput, confirmed).Accepted?
    ensures var rest := PermanentDeleteDecision(deleted, OneItem, numberInput, confirmed).value;
      confirmed && k < |deleted| && ItemNumberInput(numberInput) == Accepted(deleted[k].itemNumber)
      && (forall j :: 0 <= j < k ==> deleted[j].itemNumber != deleted[k].itemNumber)
      && rest == deleted[..k] + deleted[k + 1..]
      && multiset(rest) + multiset{deleted[k]} == multiset(deleted)
  {
    LookupInputAccepted(deleted, numberInput);
    k := LookupInput(deleted, numberInput).value;
    RemoveAtMultiset(deleted, k);
  }

  /** Permanent delete of all items leaves nothing, and only after the confirmation. */
  lemma PermanentDeleteAll(deleted: seq<Item>, numberInput: Option<string>, confirmed: bool)
    ensures PermanentDeleteDecision(deleted, AllItems, numberInput, confirmed).Accepted?
        <==> deleted != [] && confirmed
    ensures PermanentDeleteDecision(deleted, AllItems, numberInput, confirmed).Accepted? ==>
      PermanentDeleteDecision(deleted, AllItems, numberInput, confirmed).value == []
  {
  }

  /**
    A restore loses and duplicates nothing: what it moves and what it keeps are the deleted
    list, and it moves at least one item; restoring all moves the list in its order.
  */
  lemma RestoreAccepted(deleted: seq<Item>, choice: Choice, numberInput: Option<string>,
    confirmed: bool)
    requires RestoreDecision(deleted, choice, numberInput, confirmed).Accepted?
    ensures var t := RestoreDecision(deleted, choice, numberInput, confirmed).value;
      choice != CancelChoice && t.moved != []
      && multiset(t.moved) + multiset(t.kept) == multiset(deleted)
      && (choice == AllItems ==> confirmed && t.moved == deleted && t.kept == [])
      && (choice == OneItem ==>
            (|t.moved| == 1 && ItemNumberInput(numberInput) == Accepted(t.moved[0].itemNumber)))
  {
    if choice == OneItem {
      LookupInputAccepted(deleted, numberInput);
      var k := LookupInput(deleted, numberInput).value;
      RemoveAtMultiset(deleted, k);
    }
  }
}
