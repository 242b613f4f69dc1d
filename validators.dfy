/**
  `DataValidator`: the checks applied to what the user types into the create and update
  dialogs. Each predicate is the boolean the Java method returns; the message boxes it shows
  on the way are presentation and are not modelled.
*/
module DataValidator {
  import opened Wrappers
  import opened JavaInt
  import opened JavaText
  import opened Model

  /** `[a-zA-Z]` */
  predicate IsAsciiLetter(c: char) {
    ('a' <= c <= 'z') || ('A' <= c <= 'Z')
  }

  /** One character of the class `[a-zA-Z0-9\s]`. */
  predicate IsNameChar(c: char) {
    IsAsciiLetter(c) || IsDigit(c) || IsWhitespace(c)
  }

  /** `s.matches("\\d+")`: one digit, then the rest matched the same way. */
  function MatchesDigits(s: string): (r: bool)
    ensures r <==> s != [] && AllDigits(s)
  {
    s != [] && IsDigit(s[0]) && (|s| == 1 || MatchesDigits(s[1..]))
  }

  /** `s.matches("[a-zA-Z0-9\\s]+")`, matched the same way. */
  function MatchesNameChars(s: string): (r: bool)
    ensures r <==> s != [] && forall k :: 0 <= k < |s| ==> IsNameChar(s[k])
  {
    s != [] && IsNameChar(s[0]) && (|s| == 1 || MatchesNameChars(s[1..]))
  }

  /** `isCSVFileEmpty`: the list has no items. */
  predicate IsCsvFileEmpty(list: seq<Item>) {
    |list| == 0
  }

  /** `isInputNull`: the dialog was closed, so there is no string at all. */
  predicate IsInputNull(input: Option<string>) {
    input.None?
  }

  /** `isInputEmpty`: length zero; a string of blanks is not empty. */
  predicate IsInputEmpty(input: string) {
    |input| == 0
  }

  /** `isQuantityInputValid`: digits only, at least one, no sign. */
  predicate IsQuantityInputValid(quantity: string) {
    MatchesDigits(quantity)
  }

  /** `isPositiveQuantity` */
  predicate IsPositiveQuantity(quantity: int) {
    quantity >= 1
  }

  /** `isValidItemName`: letters, digits and `\s` blanks only, at least one. */
  predicate IsValidItemName(itemName: string) {
    MatchesNameChars(itemName)
  }

  /** `isItemNumberFound`: the lookup produced an item. */
  predicate IsItemNumberFound(selected: Option<Item>) {
    selected.Some?
  }

  /** A blank is not empty input; normalising it first is what makes it empty. */
  lemma BlankIsNotEmpty()
    ensures !IsInputEmpty(" ") && IsInputEmpty(Normalize(" "))
  {
    NormalizeEmpty(" ");
  }

  /** A quantity text of at most nine digits always parses, to a non-negative number. */
  lemma ValidQuantityParses(quantity: string)
    requires IsQuantityInputValid(quantity) && |quantity| <= 9
    ensures ParseInt(quantity).Some? && ParseInt(quantity).value >= 0
  {
    ParseIntOfDigits(quantity);
  }

  /** Ten digits can pass the check and still overflow `int`, which the callers must catch. */
  lemma ValidQuantityMayOverflow()
    ensures IsQuantityInputValid("9999999999") && ParseInt("9999999999").None?
  {
    var s := "9999999999";
    assert AllDigits(s);
    assert s[0] == '9';
    DigitsValueLeading(s);
    assert Pow10(9) == 1_000_000_000;
    assert DigitsValue(s) > INT_MAX;
  }

  /**
    A valid name that went through the input normalisation holds no comma and no line break,
    so it can be written as a CSV field.
  */
  lemma NormalizedValidNameIsPlain(input: string)
    requires IsValidItemName(Normalize(input))
    ensures var name := Normalize(input);
      name != [] && forall k :: 0 <= k < |name| ==> name[k] != ',' && name[k] != '\n' && name[k] != '\r'
  {
    NormalizeShape(input);
  }
}

/** `DataValidatorForUpdates`: the checks of the update dialog, one per field. */
module DataValidatorForUpdates {
  import opened Model

  /**
    `isUpdatedItemNumberValid`: each known type owns a block of one hundred numbers; no number
    is valid for any other type.
  */
  predicate IsUpdatedItemNumberValid(itemType: string, itemNumber: int) {
    match itemType
    case "Vases" => 100 <= itemNumber < 200
    case "Table Runners" => 200 <= itemNumber < 300
    case "Greeneries" => 300 <= itemNumber < 400
    case _ => false
  }

  /** `isUpdatedItemNumberDuplicate`: the new number is the selected item's own. */
  predicate IsUpdatedItemNumberDuplicate(selected: Item, newItemNumber: int) {
    newItemNumber == selected.itemNumber
  }

  /** `doesUpdatedItemNumberExist`: a scan that stops at the first item carrying the number. */
  function DoesUpdatedItemNumberExist(list: seq<Item>, newItemNumber: int): (r: bool)
    ensures r <==> exists i :: 0 <= i < |list| && list[i].itemNumber == newItemNumber
  {
    if list == [] then false
    else if list[0].itemNumber == newItemNumber then true
    else
      var rest := DoesUpdatedItemNumberExist(list[1..], newItemNumber);
      assert rest ==> exists i :: 0 <= i < |list[1..]| && list[1..][i].itemNumber == newItemNumber;
      assert forall i :: 0 < i < |list| ==> list[i] == list[1..][i - 1];
      rest
  }

  /** `isSameItemType` */
  predicate IsSameItemType(selected: Item, newType: string) {
    newType == selected.itemType
  }

  /** `isUpdatedItemNameEmpty` */
  predicate IsUpdatedItemNameEmpty(newItemName: string) {
    |newItemName| == 0
  }

  /** `isSameItemName` */
  predicate IsSameItemName(selected: Item, newItemName: string) {
    newItemName == selected.itemName
  }

  /** `isSameQuantity` */
  predicate IsSameQuantity(selected: Item, newQuantity: int) {
    newQuantity == selected.quantity
  }

  /** The three blocks do not overlap: a number is valid for one type at most. */
  lemma ItemNumberRangesDisjoint(type1: string, type2: string, itemNumber: int)
    requires IsUpdatedItemNumberValid(type1, itemNumber) && IsUpdatedItemNumberValid(type2, itemNumber)
    ensures type1 == type2
  {
  }

  /** Only the three types the dialogs offer accept any number. */
  lemma ValidOnlyForKnownTypes(itemType: string, itemNumber: int)
    requires IsUpdatedItemNumberValid(itemType, itemNumber)
    ensures itemType in ItemTypes
  {
  }

  /** The block of a known type is one hundred numbers long, from a multiple of one hundred. */
  lemma ValidRangeOfKnownType(itemType: string) returns (lo: int)
    requires itemType in ItemTypes
    ensures lo % 100 == 0 && 100 <= lo <= 300
    ensures forall n :: IsUpdatedItemNumberValid(itemType, n) <==> lo <= n < lo + 100
  {
    lo := if itemType == "Vases" then 100 else if itemType == "Table Runners" then 200 else 300;
  }
}

/** `DataValidatorForUpdate`: the list check and the item-number text check of the update flow. */
module DataValidatorForUpdate {
  import opened JavaInt
  import opened Model
  import DataValidator

  /** `validateUpdatedItemsList`: true when there is something to update. */
  predicate ValidateUpdatedItemsList(updatedItems: seq<Item>) {
    if |updatedItems| == 0 then false else true
  }

  /** `isValidItemNumberForUpdate`: rejects the empty text, then any text that is not all digits. */
  predicate IsValidItemNumberForUpdate(itemNumber: string) {
    if |itemNumber| == 0 then false
    else if !DataValidator.MatchesDigits(itemNumber) then false
    else true
  }

  /** The list check has the opposite polarity of `isCSVFileEmpty`. */
  lemma ListChecksOpposite(list: seq<Item>)
    ensures ValidateUpdatedItemsList(list) == !DataValidator.IsCsvFileEmpty(list)
  {
  }

  /** The item-number check accepts exactly the texts the quantity check accepts. */
  lemma ItemNumberCheckIsQuantityCheck(s: string)
    ensures IsValidItemNumberForUpdate(s) == DataValidator.IsQuantityInputValid(s)
  {
  }

  /** The empty text and any text with a non-digit are rejected; all-digit text is accepted. */
  lemma ItemNumberCheckRejects(s: string)
    ensures |s| == 0 ==> !IsValidItemNumberForUpdate(s)
    ensures (exists k :: 0 <= k < |s| && !IsDigit(s[k])) ==> !IsValidItemNumberForUpdate(s)
    ensures s != [] && AllDigits(s) ==> IsValidItemNumberForUpdate(s)
  {
  }
}

/** `ValidatingItemNumber`: the range text shown in the item-number error message. */
module ValidatingItemNumber {
  import opened JavaInt
  import opened Model
  import opened DataValidatorForUpdates

  /** `validateItemNumberRange` */
  function ValidateItemNumberRange(itemType: string): string {
    match itemType
    case "Vases" => "100 - 199"
    case "Table Runners" => "200 - 299"
    case "Greeneries" => "300 - 399"
    case _ => "Unknown"
  }

  /**
    A range text names, as "lo - hi", the lowest and the highest number the update validator
    accepts for that type, and the validator accepts exactly the numbers in between.
  */
  lemma RangeTextBounds(itemType: string) returns (lo: int, hi: int)
    requires ValidateItemNumberRange(itemType) != "Unknown"
    ensures ValidateItemNumberRange(itemType) == IntToString(lo) + " - " + IntToString(hi)
    ensures IsUpdatedItemNumberValid(itemType, lo) && IsUpdatedItemNumberValid(itemType, hi)
    ensures forall n :: IsUpdatedItemNumberValid(itemType, n) <==> lo <= n <= hi
  {
    if itemType == "Vases" {
      lo, hi := 100, 199;
    } else if itemType == "Table Runners" {
      lo, hi := 200, 299;
    } else {
      lo, hi := 300, 399;
    }
    PrintedRanges();
  }

  /** The three range texts are the printed forms of their bounds. */
  lemma PrintedRanges()
    ensures IntToString(100) + " - " + IntToString(199) == "100 - 199"
    ensures IntToString(200) + " - " + IntToString(299) == "200 - 299"
    ensures IntToString(300) + " - " + IntToString(399) == "300 - 399"
  {
    IntToStringOfThreeDigits(100);
    IntToStringOfThreeDigits(199);
    IntToStringOfThreeDigits(200);
    IntToStringOfThreeDigits(299);
    IntToStringOfThreeDigits(300);
    IntToStringOfThreeDigits(399);
  }

  /** "Unknown" is given exactly for the types for which the validator accepts no number. */
  lemma UnknownIffNothingValid(itemType: string)
    ensures ValidateItemNumberRange(itemType) == "Unknown"
        <==> forall n :: !IsUpdatedItemNumberValid(itemType, n)
  {
    if ValidateItemNumberRange(itemType) != "Unknown" {
      var lo, hi := RangeTextBounds(itemType);
    }
  }

  /** A number of three digits prints as its three digits. */
  lemma IntToStringOfThreeDigits(n: int)
    requires 100 <= n <= 999
    ensures IntToString(n) == [DigitChar(n / 100), DigitChar(n / 10 % 10), DigitChar(n % 10)]
  {
    assert NatToString(n / 100) == [DigitChar(n / 100)];
    assert NatToString(n / 10) == NatToString(n / 100) + [DigitChar(n / 10 % 10)];
  }
}
