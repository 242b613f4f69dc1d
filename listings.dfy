/**
  The grouping behind every report and text area: a `TreeMap` from item type to the list of
  items of that type, filled by one pass over the input, then read back in ascending type
  order, each group ordered (or not) and its rows numbered from 1.
*/
module Listings {
  import opened Wrappers
  import opened JavaText
  import opened Model
  import opened Sorting

  /** One `TreeMap` entry: a type and the items added under it, in insertion order. */
  datatype Group = Group(itemType: string, items: seq<Item>)

  /** One printed row: its number within the section, the item, and the name as shown. */
  datatype Row = Row(number: int, item: Item, shownName: string)

  /** The block printed under "Type: ..." for one type. */
  datatype Section = Section(itemType: string, rows: seq<Row>)

  /** A report or text-area content: the two fixed header lines, then the type sections. */
  datatype Listing = Listing(title: string, underline: string, sections: seq<Section>)

  /** `String.compareTo(a, b) < 0` */
  predicate StrLt(a: string, b: string) {
    StrLe(a, b) && a != b
  }

  predicate StrictlySorted(keys: seq<string>) {
    forall i, j :: 0 <= i < j < |keys| ==> StrLt(keys[i], keys[j])
  }

  /** The items of type `t`, in input order. */
  function FilterType(items: seq<Item>, t: string): seq<Item> {
    if items == [] then []
    else
      var last := items[|items| - 1];
      FilterType(items[..|items| - 1], t) + (if last.itemType == t then [last] else [])
  }

  function Keys(groups: seq<Group>): (keys: seq<string>)
    ensures |keys| == |groups|
    ensures forall i :: 0 <= i < |groups| ==> keys[i] == groups[i].itemType
  {
    if groups == [] then [] else [groups[0].itemType] + Keys(groups[1..])
  }

  /** `map.get(t)`, with the missing key read as no items. */
  function Lookup(groups: seq<Group>, t: string): seq<Item> {
    if groups == [] then []
    else if groups[0].itemType == t then groups[0].items
    else Lookup(groups[1..], t)
  }

  /** All grouped items, group after group. */
  function Flatten(groups: seq<Group>): seq<Item> {
    if groups == [] then [] else groups[0].items + Flatten(groups[1..])
  }

  predicate NonEmptyGroups(groups: seq<Group>) {
    forall i :: 0 <= i < |groups| ==> groups[i].items != []
  }

  /**
    `groups` is what the `TreeMap` holds after adding `items`: keys in ascending order, no key
    without items, and under each type exactly the items of that type, in input order.
  */
  ghost predicate GroupedBy(groups: seq<Group>, items: seq<Item>) {
    StrictlySorted(Keys(groups)) && NonEmptyGroups(groups)
    && forall t :: Lookup(groups, t) == FilterType(items, t)
  }

  /**
    One step of the fill loop: `containsKey`, `put` of a new list when the key is missing (in
    its place in key order), then `add` at the end of that type's list.
  */
  function AddToGroup(groups: seq<Group>, x: Item): seq<Group> {
    if groups == [] then [Group(x.itemType, [x])]
    else if groups[0].itemType == x.itemType then [Group(x.itemType, groups[0].items + [x])] + groups[1..]
    else if StrLe(x.itemType, groups[0].itemType) then [Group(x.itemType, [x])] + groups
    else [groups[0]] + AddToGroup(groups[1..], x)
  }

  /** Filtering sees one more item at the end. */
  lemma FilterTypeSnoc(items: seq<Item>, x: Item, t: string)
    ensures FilterType(items + [x], t) == FilterType(items, t) + (if x.itemType == t then [x] else [])
  {
    assert (items + [x])[..|items|] == items;
  }

  /**
    The filter keeps exactly the items of type `t`, each as often as it occurs, and keeps
    nothing else.
  */
  lemma {:induction false} FilterTypeCount(items: seq<Item>, t: string, x: Item)
    ensures multiset(FilterType(items, t))[x] == if x.itemType == t then multiset(items)[x] else 0
  {
    if items != [] {
      var init, last := items[..|items| - 1], items[|items| - 1];
      FilterTypeCount(init, t, x);
      assert items == init + [last];
    }
  }

  /** An item lies in the group of its own type. */
  lemma FilterTypeHolds(items: seq<Item>, j: int)
    requires 0 <= j < |items|
    ensures items[j] in FilterType(items, items[j].itemType)
  {
    FilterTypeCount(items, items[j].itemType, items[j]);
    assert items[j] in multiset(items);
  }

  lemma {:induction false} LookupAbsent(groups: seq<Group>, t: string)
    requires t !in Keys(groups)
    ensures Lookup(groups, t) == []
  {
    if groups != [] {
      assert Keys(groups[1..]) == Keys(groups)[1..];
      LookupAbsent(groups[1..], t);
    }
  }

  /** With distinct keys, looking up a group's own key gives that group's items. */
  lemma {:induction false} LookupAt(groups: seq<Group>, i: int)
    requires StrictlySorted(Keys(groups)) && 0 <= i < |groups|
    ensures Lookup(groups, groups[i].itemType) == groups[i].items
  {
    if i > 0 {
      assert Keys(groups[1..]) == Keys(groups)[1..];
      LookupAt(groups[1..], i - 1);
    }
  }

  lemma {:induction false} FlattenAppend(a: seq<Group>, b: seq<Group>)
    ensures Flatten(a + b) == Flatten(a) + Flatten(b)
  {
    if a == [] {
      assert a + b == b;
    } else {
      assert (a + b)[0] == a[0] && (a + b)[1..] == a[1..] + b;
      FlattenAppend(a[1..], b);
    }
  }

  /** Adding keeps the keys ascending, and adds the item's type to them if it was missing. */
  lemma {:induction false} AddToGroupKeys(groups: seq<Group>, x: Item, t: string)
    requires StrictlySorted(Keys(groups))
    ensures StrictlySorted(Keys(AddToGroup(groups, x)))
    ensures t in Keys(AddToGroup(groups, x)) <==> t in Keys(groups) || t == x.itemType
  {
    if groups != [] && groups[0].itemType != x.itemType {
      var g0 := groups[0].itemType;
      assert Keys(groups) == [g0] + Keys(groups[1..]);
      if StrLe(x.itemType, g0) {
        forall j | 0 < j < |groups|
          ensures StrLt(x.itemType, Keys(groups)[j])
        {
          StrLeTransitive(x.itemType, g0, Keys(groups)[j]);
          if x.itemType == Keys(groups)[j] {
            StrLeAntisymmetric(x.itemType, g0);
          }
        }
      } else {
        StrLeTotal(x.itemType, g0);
        var rest := AddToGroup(groups[1..], x);
        AddToGroupKeys(groups[1..], x, t);
        forall k | k in Keys(rest)
          ensures StrLt(g0, k)
        {
          AddToGroupKeys(groups[1..], x, k);
        }
        assert Keys(AddToGroup(groups, x)) == [g0] + Keys(rest);
      }
    }
  }

  /** Adding `x` puts it at the end of its own type's items and changes no other type. */
  lemma {:induction false} AddToGroupLookup(groups: seq<Group>, x: Item, t: string)
    requires StrictlySorted(Keys(groups))
    ensures Lookup(AddToGroup(groups, x), t) == Lookup(groups, t) + (if t == x.itemType then [x] else [])
  {
    if groups != [] && groups[0].itemType != x.itemType {
      var g0 := groups[0].itemType;
      assert Keys(groups[1..]) == Keys(groups)[1..];
      if StrLe(x.itemType, g0) {
        if t == x.itemType {
          AddToGroupKeys(groups, x, t);
          forall j | 0 < j < |groups|
            ensures Keys(groups)[j] != t
          {
            if Keys(groups)[j] == t {
              StrLeAntisymmetric(x.itemType, g0);
            }
          }
          LookupAbsent(groups, t);
        }
      } else {
        AddToGroupLookup(groups[1..], x, t);
      }
    }
  }

  lemma {:induction false} AddToGroupNonEmpty(groups: seq<Group>, x: Item)
    requires NonEmptyGroups(groups)
    ensures NonEmptyGroups(AddToGroup(groups, x))
  {
    if groups != [] && groups[0].itemType != x.itemType && !StrLe(x.itemType, groups[0].itemType) {
      AddToGroupNonEmpty(groups[1..], x);
    }
  }

  /** Adding puts in exactly one more item. */
  lemma {:induction false} AddToGroupFlatten(groups: seq<Group>, x: Item)
    ensures multiset(Flatten(AddToGroup(groups, x))) == multiset(Flatten(groups)) + multiset{x}
  {
    if groups != [] && groups[0].itemType != x.itemType && !StrLe(x.itemType, groups[0].itemType) {
      AddToGroupFlatten(groups[1..], x);
    }
  }

  /** One loop step turns the grouping of `items` into the grouping of `items + [x]`. */
  lemma AddToGroupGrouped(groups: seq<Group>, items: seq<Item>, x: Item)
    requires GroupedBy(groups, items)
    ensures GroupedBy(AddToGroup(groups, x), items + [x])
  {
    AddToGroupKeys(groups, x, x.itemType);
    AddToGroupNonEmpty(groups, x);
    forall t
      ensures Lookup(AddToGroup(groups, x), t) == FilterType(items + [x], t)
    {
      AddToGroupLookup(groups, x, t);
      FilterTypeSnoc(items, x, t);
    }
  }

  /** A type has a group exactly when some item has that type. */
  lemma GroupedKeys(groups: seq<Group>, items: seq<Item>, t: string)
    requires GroupedBy(groups, items)
    ensures t in Keys(groups) <==> exists j :: 0 <= j < |items| && items[j].itemType == t
  {
    if t in Keys(groups) {
      var i :| 0 <= i < |groups| && groups[i].itemType == t;
      LookupAt(groups, i);
      var x := groups[i].items[0];
      assert x in FilterType(items, t);
      FilterTypeCount(items, t, x);
      assert x in multiset(items);
      var j :| 0 <= j < |items| && items[j] == x;
    } else {
      LookupAbsent(groups, t);
      forall j | 0 <= j < |items|
        ensures items[j].itemType != t
      {
        FilterTypeHolds(items, j);
      }
    }
  }

  /** The grouping of a list is unique: the map's content depends on the input only. */
  lemma {:induction false} GroupedByUnique(g1: seq<Group>, g2: seq<Group>, items: seq<Item>)
    requires GroupedBy(g1, items) && GroupedBy(g2, items)
    ensures g1 == g2
    decreases |g1|
  {
    GroupedEmpty(g1, items);
    GroupedEmpty(g2, items);
    if g1 != [] {
      GroupedHeadsAgree(g1, g2, items);
      LookupAt(g1, 0);
      LookupAt(g2, 0);
      var rest := FilterOut(items, g1[0].itemType);
      GroupedTail(g1, items, rest);
      GroupedTail(g2, items, rest);
      GroupedByUnique(g1[1..], g2[1..], rest);
      assert g1 == [g1[0]] + g1[1..] && g2 == [g2[0]] + g2[1..];
    }
  }

  /** A grouping is empty exactly when there is nothing to group. */
  lemma GroupedEmpty(groups: seq<Group>, items: seq<Item>)
    requires GroupedBy(groups, items)
    ensures groups == [] <==> items == []
  {
    if groups != [] {
      LookupAt(groups, 0);
      var x := groups[0].items[0];
      FilterTypeCount(items, groups[0].itemType, x);
      assert x in multiset(FilterType(items, groups[0].itemType));
    } else if items != [] {
      FilterTypeHolds(items, 0);
    }
  }

  /** Two groupings of the same items start with the same, smallest, type. */
  lemma GroupedHeadsAgree(g1: seq<Group>, g2: seq<Group>, items: seq<Item>)
    requires GroupedBy(g1, items) && GroupedBy(g2, items) && g1 != [] && g2 != []
    ensures g1[0].itemType == g2[0].itemType
  {
    var k1, k2 := g1[0].itemType, g2[0].itemType;
    GroupedKeyIn(g2, g1, items, 0);
    GroupedKeyIn(g1, g2, items, 0);
    var i1 :| 0 <= i1 < |g1| && g1[i1].itemType == k2;
    var i2 :| 0 <= i2 < |g2| && g2[i2].itemType == k1;
    if k1 != k2 {
      assert i1 > 0 && i2 > 0;
      assert StrLe(k1, k2) && StrLe(k2, k1);
      StrLeAntisymmetric(k1, k2);
    }
  }

  /** A key of one grouping of `items` is a key of every grouping of `items`. */
  lemma GroupedKeyIn(g1: seq<Group>, g2: seq<Group>, items: seq<Item>, i: int)
    requires GroupedBy(g1, items) && GroupedBy(g2, items) && 0 <= i < |g2|
    ensures exists i1 :: 0 <= i1 < |g1| && g1[i1].itemType == g2[i].itemType
  {
    GroupedKeys(g2, items, g2[i].itemType);
    GroupedKeys(g1, items, g2[i].itemType);
  }

  /** The items whose type is not `t`, in order. */
  function FilterOut(items: seq<Item>, t: string): seq<Item> {
    if items == [] then []
    else
      var last := items[|items| - 1];
      FilterOut(items[..|items| - 1], t) + (if last.itemType != t then [last] else [])
  }

  lemma {:induction false} FilterOutType(items: seq<Item>, t: string, u: string)
    ensures FilterType(FilterOut(items, t), u) == if u == t then [] else FilterType(items, u)
  {
    if items != [] {
      var init, last := items[..|items| - 1], items[|items| - 1];
      FilterOutType(init, t, u);
      assert FilterType(items, u) == FilterType(init, u) + (if last.itemType == u then [last] else []);
      if last.itemType != t {
        assert FilterOut(items, t) == FilterOut(init, t) + [last];
        FilterTypeSnoc(FilterOut(init, t), last, u);
      } else {
        assert FilterOut(items, t) == FilterOut(init, t);
      }
    }
  }

  /** Dropping the first group leaves the grouping of the items of the other types. */
  lemma GroupedTail(groups: seq<Group>, items: seq<Item>, rest: seq<Item>)
    requires GroupedBy(groups, items) && groups != []
    requires rest == FilterOut(items, groups[0].itemType)
    ensures GroupedBy(groups[1..], rest)
  {
    var k := groups[0].itemType;
    assert Keys(groups[1..]) == Keys(groups)[1..];
    forall t
      ensures Lookup(groups[1..], t) == FilterType(rest, t)
    {
      FilterOutType(items, k, t);
      if t == k {
        LookupAbsent(groups[1..], t);
      }
    }
  }

  lemma GroupStep(groups: seq<Group>, items: seq<Item>, i: int)
    requires 0 <= i < |items|
    requires GroupedBy(groups, items[..i]) && multiset(Flatten(groups)) == multiset(items[..i])
    ensures GroupedBy(AddToGroup(groups, items[i]), items[..i + 1])
    ensures multiset(Flatten(AddToGroup(groups, items[i]))) == multiset(items[..i + 1])
  {
    AddToGroupGrouped(groups, items[..i], items[i]);
    AddToGroupFlatten(groups, items[i]);
    assert items[..i + 1] == items[..i] + [items[i]];
  }

  /** The `TreeMap` fill loop over the whole input. */
  method GroupByType(items: seq<Item>) returns (groups: seq<Group>)
    ensures GroupedBy(groups, items)
    ensures multiset(Flatten(groups)) == multiset(items)
  {
    groups := [];
    for i := 0 to |items|
      invariant GroupedBy(groups, items[..i])
      invariant multiset(Flatten(groups)) == multiset(items[..i])
    {
      GroupStep(groups, items, i);
      groups := AddToGroup(groups, items[i]);
    }
    assert items[..|items|] == items;
  }

  /** The within-group ordering: a stream sort by `key`, or the list as it is. */
  function Ordered(order: Option<SortKey>, s: seq<Item>): seq<Item> {
    match order
    case None => s
    case Some(key) => SortBy(key, s)
  }

  lemma OrderedPermutes(order: Option<SortKey>, s: seq<Item>)
    ensures multiset(Ordered(order, s)) == multiset(s) && |Ordered(order, s)| == |s|
  {
    if order.Some? {
      SortByPermutes(order.value, s);
      assert |multiset(Ordered(order, s))| == |multiset(s)|;
    }
  }

  /** The name column of the text areas: at most 35 characters, cut to 32 plus "...". */
  function DisplayName(name: string): string {
    if |name| > 35 then name[..32] + "..." else name
  }

  lemma DisplayNameBound(name: string)
    ensures |DisplayName(name)| <= 35
    ensures |name| <= 35 <==> DisplayName(name) == name
    ensures |name| > 35 ==> DisplayName(name)[..32] == name[..32] && DisplayName(name)[32..] == "..."
  {
  }

  /** The name as a row shows it: truncated in the text areas, whole in the reports. */
  function ShownName(truncate: bool, name: string): string {
    if truncate then DisplayName(name) else name
  }

  function RowItems(rows: seq<Row>): (items: seq<Item>)
    ensures |items| == |rows|
    ensures forall k :: 0 <= k < |rows| ==> items[k] == rows[k].item
  {
    if rows == [] then [] else [rows[0].item] + RowItems(rows[1..])
  }

  /** Rows numbered 1, 2, ... in order, each showing its item's name by the display rule. */
  predicate Numbered(rows: seq<Row>, truncate: bool) {
    forall k :: 0 <= k < |rows| ==> rows[k].number == k + 1 && rows[k].shownName == ShownName(truncate, rows[k].item.itemName)
  }

  /** The per-group row loop, `i + 1` or `count++`. */
  method NumberRows(sorted: seq<Item>, truncate: bool) returns (rows: seq<Row>)
    ensures RowItems(rows) == sorted && Numbered(rows, truncate)
  {
    rows := [];
    for i := 0 to |sorted|
      invariant |rows| == i
      invariant forall k :: 0 <= k < i ==> rows[k] == Row(k + 1, sorted[k], ShownName(truncate, sorted[k].itemName))
    {
      rows := rows + [Row(i + 1, sorted[i], ShownName(truncate, sorted[i].itemName))];
    }
  }

  function SectionKeys(sections: seq<Section>): (keys: seq<string>)
    ensures |keys| == |sections|
    ensures forall i :: 0 <= i < |sections| ==> keys[i] == sections[i].itemType
  {
    if sections == [] then [] else [sections[0].itemType] + SectionKeys(sections[1..])
  }

  /** Every row of every section, section after section. */
  function AllRowItems(sections: seq<Section>): seq<Item> {
    if sections == [] then [] else RowItems(sections[0].rows) + AllRowItems(sections[1..])
  }

  lemma {:induction false} AllRowItemsSnoc(sections: seq<Section>, s: Section)
    ensures AllRowItems(sections + [s]) == AllRowItems(sections) + RowItems(s.rows)
  {
    if sections != [] {
      assert (sections + [s])[1..] == sections[1..] + [s];
      AllRowItemsSnoc(sections[1..], s);
    }
  }

  /**
    The sections list `items`: one section per type present, in ascending type order, each
    holding that type's items in the given order, numbered from 1.
  */
  predicate Lists(sections: seq<Section>, items: seq<Item>, order: Option<SortKey>, truncate: bool) {
    StrictlySorted(SectionKeys(sections))
    && (forall j :: 0 <= j < |items| ==> items[j].itemType in SectionKeys(sections))
    && forall i :: 0 <= i < |sections| ==>
         sections[i].rows != [] && Numbered(sections[i].rows, truncate)
         && RowItems(sections[i].rows) == Ordered(order, FilterType(items, sections[i].itemType))
  }

  /** `section` is what the entry loop prints for `g`. */
  predicate Built(section: Section, g: Group, order: Option<SortKey>, truncate: bool) {
    section.itemType == g.itemType && RowItems(section.rows) == Ordered(order, g.items)
    && Numbered(section.rows, truncate)
  }

  /** Sections built from groups list the groups' items, each as often as it occurs. */
  lemma {:induction false} BuiltPermutes(sections: seq<Section>, groups: seq<Group>, order: Option<SortKey>, truncate: bool)
    requires |sections| == |groups|
    requires forall i :: 0 <= i < |groups| ==> Built(sections[i], groups[i], order, truncate)
    ensures multiset(AllRowItems(sections)) == multiset(Flatten(groups))
  {
    if groups != [] {
      OrderedPermutes(order, groups[0].items);
      BuiltPermutes(sections[1..], groups[1..], order, truncate);
    }
  }

  /** The loop over the map's entries: order each group, then number its rows. */
  method BuildSections(groups: seq<Group>, order: Option<SortKey>, truncate: bool)
    returns (sections: seq<Section>)
    ensures |sections| == |groups|
    ensures forall i :: 0 <= i < |groups| ==> Built(sections[i], groups[i], order, truncate)
  {
    sections := [];
    for j := 0 to |groups|
      invariant |sections| == j
      invariant forall i :: 0 <= i < j ==> Built(sections[i], groups[i], order, truncate)
    {
      var rows := NumberRows(Ordered(order, groups[j].items), truncate);

      sections := sections + [Section(groups[j].itemType, rows)];
    }
  }

  /** Group, then build the sections: the shared body of the reports and the text areas. */
  method ListSections(items: seq<Item>, order: Option<SortKey>, truncate: bool)
    returns (sections: seq<Section>)
    ensures Lists(sections, items, order, truncate)
    ensures multiset(AllRowItems(sections)) == multiset(items)
  {
    var groups := GroupByType(items);
    sections := BuildSections(groups, order, truncate);
    BuiltPermutes(sections, groups, order, truncate);
    assert SectionKeys(sections) == Keys(groups);
    forall i | 0 <= i < |sections|
      ensures sections[i].rows != []
      ensures RowItems(sections[i].rows) == Ordered(order, FilterType(items, sections[i].itemType))
    {
      LookupAt(groups, i);
      OrderedPermutes(order, groups[i].items);
    }
    forall j | 0 <= j < |items|
      ensures items[j].itemType in SectionKeys(sections)
    {
      GroupedKeys(groups, items, items[j].itemType);
    }
  }

  /** A section lists exactly the items of its type, each as often as it occurs. */
  lemma SectionPermutes(sections: seq<Section>, items: seq<Item>, order: Option<SortKey>, truncate: bool, i: int, x: Item)
    requires Lists(sections, items, order, truncate) && 0 <= i < |sections|
    ensures multiset(RowItems(sections[i].rows))[x]
      == if x.itemType == sections[i].itemType then multiset(items)[x] else 0
  {
    OrderedPermutes(order, FilterType(items, sections[i].itemType));
    FilterTypeCount(items, sections[i].itemType, x);
  }

  /** Under a sort key a section is ordered by it, and items it calls equal keep input order. */
  lemma SectionSorted(sections: seq<Section>, items: seq<Item>, key: SortKey, truncate: bool, i: int, y: Item)
    requires Lists(sections, items, Some(key), truncate) && 0 <= i < |sections|
    ensures Sorted(key, RowItems(sections[i].rows))
    ensures Ties(key, RowItems(sections[i].rows), y) == Ties(key, FilterType(items, sections[i].itemType), y)
  {
    SortBySorted(key, FilterType(items, sections[i].itemType));
    SortByStable(key, FilterType(items, sections[i].itemType), y);
  }

  /** Every type of the input, and no other, has a section. */
  lemma SectionsCoverTypes(sections: seq<Section>, items: seq<Item>, order: Option<SortKey>, truncate: bool, t: string)
    requires Lists(sections, items, order, truncate)
    ensures t in SectionKeys(sections) <==> exists j :: 0 <= j < |items| && items[j].itemType == t
  {
    if t in SectionKeys(sections) {
      var i :| 0 <= i < |sections| && sections[i].itemType == t;
      var x := RowItems(sections[i].rows)[0];
      SectionPermutes(sections, items, order, truncate, i, x);
      assert x in multiset(RowItems(sections[i].rows));
      var j :| 0 <= j < |items| && items[j] == x;
    }
  }

  /** Nothing to list gives no sections, only the header. */
  lemma NoItemsNoSections(sections: seq<Section>, order: Option<SortKey>, truncate: bool)
    requires Lists(sections, [], order, truncate)
    ensures sections == []
  {
    if sections != [] {
      OrderedPermutes(order, FilterType([], sections[0].itemType));
    }
  }
}
