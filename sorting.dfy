/**
  The within-type orderings of the listings: `stream().sorted(comparator)`, which is a stable
  sort, with the three comparators the application uses.
*/
module Sorting {
  import opened JavaText
  import opened Model

  /** The comparators: by name (`String.compareTo`), by item number, by quantity reversed. */
  datatype SortKey = ByItemName | ByItemNumber | ByQuantityDescending

  /** `a` may come before `b`: the comparator does not put `b` strictly first. */
  predicate KeyLe(key: SortKey, a: Item, b: Item) {
    match key
    case ByItemName => StrLe(a.itemName, b.itemName)
    case ByItemNumber => a.itemNumber <= b.itemNumber
    case ByQuantityDescending => a.quantity >= b.quantity
  }

  /** The comparator calls `a` and `b` equal. */
  predicate Equivalent(key: SortKey, a: Item, b: Item) {
    KeyLe(key, a, b) && KeyLe(key, b, a)
  }

  lemma KeyLeTotal(key: SortKey, a: Item, b: Item)
    ensures KeyLe(key, a, b) || KeyLe(key, b, a)
  {
    if key.ByItemName? {
      StrLeTotal(a.itemName, b.itemName);
    }
  }

  lemma KeyLeTransitive(key: SortKey, a: Item, b: Item, c: Item)
    requires KeyLe(key, a, b) && KeyLe(key, b, c)
    ensures KeyLe(key, a, c)
  {
    if key.ByItemName? {
      StrLeTransitive(a.itemName, b.itemName, c.itemName);
    }
  }

  predicate Sorted(key: SortKey, s: seq<Item>) {
    forall i, j :: 0 <= i < j < |s| ==> KeyLe(key, s[i], s[j])
  }

  /** Puts `x` in front of the first element it may precede. */
  function Insert(key: SortKey, x: Item, s: seq<Item>): seq<Item> {
    if s == [] then [x]
    else if KeyLe(key, x, s[0]) then [x] + s
    else [s[0]] + Insert(key, x, s[1..])
  }

  /** Insertion sort from the back: each element goes in front of the equal ones after it. */
  function SortBy(key: SortKey, s: seq<Item>): seq<Item> {
    if s == [] then [] else Insert(key, s[0], SortBy(key, s[1..]))
  }

  /** The elements `e` of `s` the comparator calls equal to `y`, in order. */
  function Ties(key: SortKey, s: seq<Item>, y: Item): seq<Item> {
    if s == [] then []
    else (if Equivalent(key, s[0], y) then [s[0]] else []) + Ties(key, s[1..], y)
  }

  lemma {:induction false} InsertPermutes(key: SortKey, x: Item, s: seq<Item>)
    ensures multiset(Insert(key, x, s)) == multiset(s) + multiset{x}
  {
    if s != [] && !KeyLe(key, x, s[0]) {
      InsertPermutes(key, x, s[1..]);
      assert s == [s[0]] + s[1..];
    }
  }

  lemma {:induction false} InsertSorted(key: SortKey, x: Item, s: seq<Item>)
    requires Sorted(key, s)
    ensures Sorted(key, Insert(key, x, s))
  {
    if s == [] {
    } else if KeyLe(key, x, s[0]) {
      forall j | 0 < j < |s| + 1
        ensures KeyLe(key, x, ([x] + s)[j])
      {
        if j > 1 {
          KeyLeTransitive(key, x, s[0], s[j - 1]);
        }
      }
    } else {
      KeyLeTotal(key, x, s[0]);
      InsertSorted(key, x, s[1..]);
      HeadPrecedesInsert(key, x, s);
    }
  }

  /** The head of a sorted `s` may precede every element of `x` inserted into the rest. */
  lemma HeadPrecedesInsert(key: SortKey, x: Item, s: seq<Item>)
    requires s != [] && Sorted(key, s) && KeyLe(key, s[0], x)
    ensures forall j :: 0 <= j < |Insert(key, x, s[1..])| ==> KeyLe(key, s[0], Insert(key, x, s[1..])[j])
  {
    var rest := Insert(key, x, s[1..]);
    InsertPermutes(key, x, s[1..]);
    forall j | 0 <= j < |rest|
      ensures KeyLe(key, s[0], rest[j])
    {
      assert rest[j] in multiset(rest);
      if rest[j] != x {
        assert rest[j] in multiset(s[1..]);
        var k :| 0 <= k < |s[1..]| && s[1..][k] == rest[j];
        assert s[k + 1] == rest[j];
      }
    }
  }

  /** Inserting `x` in front of its equals adds it first among the ties of its class. */
  lemma {:induction false} InsertTies(key: SortKey, x: Item, s: seq<Item>, y: Item)
    ensures Ties(key, Insert(key, x, s), y)
        == (if Equivalent(key, x, y) then [x] else []) + Ties(key, s, y)
  {
    if s == [] {
      assert Insert(key, x, s) == [x];
    } else if KeyLe(key, x, s[0]) {
      assert ([x] + s)[1..] == s;
    } else {
      var rest := Insert(key, x, s[1..]);
      InsertTies(key, x, s[1..], y);
      assert ([s[0]] + rest)[1..] == rest;
      assert Ties(key, Insert(key, x, s), y)
          == (if Equivalent(key, s[0], y) then [s[0]] else []) + Ties(key, rest, y);
      if Equivalent(key, x, y) && Equivalent(key, s[0], y) {
        KeyLeTransitive(key, x, y, s[0]);
      }
    }
  }

  /** The sort orders its input by the comparator. */
  lemma {:induction false} SortBySorted(key: SortKey, s: seq<Item>)
    ensures Sorted(key, SortBy(key, s))
  {
    if s != [] {
      SortBySorted(key, s[1..]);
      InsertSorted(key, s[0], SortBy(key, s[1..]));
    }
  }

  /** The sort keeps every element, as often as it occurs. */
  lemma {:induction false} SortByPermutes(key: SortKey, s: seq<Item>)
    ensures multiset(SortBy(key, s)) == multiset(s)
  {
    if s != [] {
      SortByPermutes(key, s[1..]);
      InsertPermutes(key, s[0], SortBy(key, s[1..]));
      assert s == [s[0]] + s[1..];
    }
  }

  /** The sort is stable: elements the comparator calls equal stay in their input order. */
  lemma {:induction false} SortByStable(key: SortKey, s: seq<Item>, y: Item)
    ensures Ties(key, SortBy(key, s), y) == Ties(key, s, y)
  {
    if s != [] {
      SortByStable(key, s[1..], y);
      InsertTies(key, s[0], SortBy(key, s[1..]), y);
    }
  }
}
