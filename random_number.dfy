/**
  `RandomNumberGenerator.generateRandomNumber`: a new item number is the type's base plus a
  random draw in [0, 100), drawn again while it clashes with a number already held by an item
  of the same type. The draws of `java.util.Random` are a parameter here: the sequence of
  values `nextInt(100)` would return, in order.
*/
module RandomNumberGenerator {
  import opened Wrappers
  import opened JavaInt
  import opened Model
  import DataValidatorForUpdates

  /** The base of each type's block of numbers; 0 for a type the switch does not name. */
  function BaseNumber(itemType: string): int {
    match itemType
    case "Vases" => 100
    case "Table Runners" => 200
    case "Greeneries" => 300
    case _ => 0
  }

  /** The numbers held by the items of the given type; items of other types are ignored. */
  function ExistingItemNumbers(items: seq<Item>, itemType: string): (numbers: set<int>)
    ensures forall n :: n in numbers <==>
      exists i :: 0 <= i < |items| && items[i].itemType == itemType && items[i].itemNumber == n
  {
    set i | 0 <= i < |items| && items[i].itemType == itemType :: items[i].itemNumber
  }

  /** The draws are what `nextInt(100)` can return. */
  predicate ValidDraws(draws: seq<int>) {
    forall k :: 0 <= k < |draws| ==> 0 <= draws[k] < 100
  }

  /**
    The number the retry loop settles on: the first draw whose sum with the base is not taken.
    None when every supplied draw clashes; Java would go on drawing.
  */
  function FirstFreeDraw(base: int, taken: set<int>, draws: seq<int>): Option<int> {
    if draws == [] then None
    else if base + draws[0] !in taken then Some(base + draws[0])
    else FirstFreeDraw(base, taken, draws[1..])
  }

  /** The loop gives up exactly when every draw clashes with a taken number. */
  lemma {:induction false} FirstFreeDrawNone(base: int, taken: set<int>, draws: seq<int>)
    ensures FirstFreeDraw(base, taken, draws).None?
        <==> forall k :: 0 <= k < |draws| ==> base + draws[k] in taken
  {
    if draws != [] && base + draws[0] in taken {
      FirstFreeDrawNone(base, taken, draws[1..]);
      assert forall k :: 0 < k < |draws| ==> draws[k] == draws[1..][k - 1];
    }
  }

  /**
    Otherwise its result is `base + draws[k]` for the first `k` whose sum is free, so it lies
    in the type's block and clashes with no taken number.
  */
  lemma {:induction false} FirstFreeDrawSome(base: int, taken: set<int>, draws: seq<int>)
    returns (k: nat)
    requires ValidDraws(draws) && FirstFreeDraw(base, taken, draws).Some?
    ensures var n := FirstFreeDraw(base, taken, draws).value;
      k < |draws| && n == base + draws[k] && base <= n < base + 100 && n !in taken
    ensures forall j :: 0 <= j < k ==> base + draws[j] in taken
  {
    if base + draws[0] in taken {
      var k' := FirstFreeDrawSome(base, taken, draws[1..]);
      k := k' + 1;
      assert forall j :: 0 < j < |draws| ==> draws[j] == draws[1..][j - 1];
    } else {
      k := 0;
    }
  }

  /** A generated number lies in [0, 400), so it always fits an `int`. */
  lemma GeneratedNumberInRange(itemType: string, items: seq<Item>, draws: seq<int>)
    requires ValidDraws(draws)
    ensures var r := FirstFreeDraw(BaseNumber(itemType), ExistingItemNumbers(items, itemType), draws);
      r.Some? ==> 0 <= r.value < 400
  {
    var r := FirstFreeDraw(BaseNumber(itemType), ExistingItemNumbers(items, itemType), draws);
    if r.Some? {
      var k := FirstFreeDrawSome(BaseNumber(itemType), ExistingItemNumbers(items, itemType), draws);
    }
  }

  /** With all one hundred numbers of the block taken, no sequence of draws ever ends the loop. */
  lemma {:induction false} FullBlockExhausts(base: int, taken: set<int>, draws: seq<int>)
    requires ValidDraws(draws)
    requires forall n :: base <= n < base + 100 ==> n in taken
    ensures FirstFreeDraw(base, taken, draws).None?
  {
    FirstFreeDrawNone(base, taken, draws);
  }

  /**
    The loop: draw until the number is free. Returns None when the supplied draws run out
    first; the list is only read.
  */
  method GenerateRandomNumber(itemType: string, items: seq<Item>, draws: seq<int>)
    returns (itemNumber: Option<Int32>)
    requires ValidDraws(draws)
    ensures itemNumber == FirstFreeDraw(BaseNumber(itemType), ExistingItemNumbers(items, itemType), draws)
  {
    var base := BaseNumber(itemType);
    var existing := ExistingItemNumbers(items, itemType);
    var k := 0;
    while k < |draws|
      invariant 0 <= k <= |draws|
      invariant FirstFreeDraw(base, existing, draws) == FirstFreeDraw(base, existing, draws[k..])
    {
      assert draws[k..][1..] == draws[k + 1..];
      var randomNumber := base + draws[k];
      if randomNumber !in existing {
        return Some(randomNumber);
      }
      k := k + 1;
    }
    return None;
  }

  /** A known type's block is exactly the set of numbers the update validator accepts for it. */
  lemma BaseBlockIsValidatorRange(itemType: string, n: int)
    requires itemType in ItemTypes
    ensures BaseNumber(itemType) <= n < BaseNumber(itemType) + 100
        <==> DataValidatorForUpdates.IsUpdatedItemNumberValid(itemType, n)
  {
  }

  /**
    Only same-type numbers are avoided: a Vases item that carries 250 (a number left over from
    a change of type) does not stop a new Table Runners item from getting 250 as well.
  */
  lemma OtherTypesIgnored(date: Dates.LocalDate)
    ensures var items := [Item("Old Vase", 1, 250, "Vases", date)];
      FirstFreeDraw(BaseNumber("Table Runners"), ExistingItemNumbers(items, "Table Runners"), [50])
        == Some(250)
  {
    var items := [Item("Old Vase", 1, 250, "Vases", date)];
    assert "Vases" != "Table Runners";
    assert ExistingItemNumbers(items, "Table Runners") == {};
  }
}
