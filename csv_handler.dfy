/**
  The two CSV stores, `inventory.csv` and `deleted_items.csv`, each modelled as its sequence of
  lines, with the line codec the handler uses to write and read them.
*/
module CsvHandler {
  import opened Wrappers
  import opened JavaInt
  import opened JavaText
  import opened Dates
  import opened Model

  // ---------------------------------------------------------------- the line codec

  /** One store line: name, quantity, item number, type and ISO date, separated by commas. */
  function FormatLine(item: Item): string {
    item.itemName + "," + IntToString(item.quantity) + "," + IntToString(item.itemNumber) + ","
      + item.itemType + "," + FormatIsoDate(item.creationDate)
  }

  /** What one pass of a reader's loop does with a line. */
  datatype LineResult =
    | Skipped           // the comma split does not give five fields
    | Malformed         // five fields, but a number or the date does not parse
    | Parsed(item: Item)

  /** Splits a line at its commas and, when there are five fields, parses them. */
  function ParseLine(line: string): (r: LineResult)
    ensures r.Parsed? ==>
      (|Split(line)| == 5 && r.item.itemName == Split(line)[0] && r.item.itemType == Split(line)[3])
    ensures r.Skipped? <==> |Split(line)| != 5
  {
    var parts := Split(line);
    if |parts| != 5 then Skipped
    else
      match (ParseInt(parts[1]), ParseInt(parts[2]), ParseIsoDate(parts[4]))
      case (Some(quantity), Some(itemNumber), Some(date)) =>
        Parsed(Item(parts[0], quantity, itemNumber, parts[3], date))
      case _ => Malformed
  }

  /** Text that can stand as one field of one line: no comma and no line break. */
  predicate IsFieldText(s: string) {
    ',' !in s && '\n' !in s && '\r' !in s
  }

  /** An item whose line reads back as the same item. */
  predicate WellFormed(item: Item) {
    IsFieldText(item.itemName) && IsFieldText(item.itemType)
  }

  /** The fields of a formatted line, in order. */
  function Fields(item: Item): seq<string> {
    [item.itemName, IntToString(item.quantity), IntToString(item.itemNumber), item.itemType,
     FormatIsoDate(item.creationDate)]
  }

  lemma JoinFive(f: seq<string>)
    requires |f| == 5
    ensures JoinWithCommas(f) == f[0] + "," + f[1] + "," + f[2] + "," + f[3] + "," + f[4]
  {
    var c := ",";
    assert f[3..][1..] == f[4..] && f[2..][1..] == f[3..] && f[1..][1..] == f[2..];
    var j3 := f[3] + c + f[4];
    assert JoinWithCommas(f[3..]) == j3;
    var j2 := f[2] + c + j3;
    assert JoinWithCommas(f[2..]) == j2;
    var j1 := f[1] + c + j2;
    assert JoinWithCommas(f[1..]) == j1;
    assert JoinWithCommas(f) == f[0] + c + j1;
  }

  lemma FormatLineJoinsFields(item: Item)
    ensures FormatLine(item) == JoinWithCommas(Fields(item))
  {
    JoinFive(Fields(item));
  }

  lemma PrintedIntHasNoComma(i: int)
    ensures ',' !in IntToString(i) && IntToString(i) != ""
  {
    var s := IntToString(i);
    IntToStringShape(i);
    assert forall k :: 0 <= k < |s| ==> s[k] != ',';
  }

  lemma PrintedDateHasNoComma(d: LocalDate)
    ensures ',' !in FormatIsoDate(d) && FormatIsoDate(d) != ""
  {
    var s := FormatIsoDate(d);
    FormatIsoDateShape(d);
    assert forall k :: 0 <= k < |s| ==> s[k] != ',';
  }

  /** A line written for a well-formed item parses back to that item. */
  lemma LineRoundTrip(item: Item)
    requires WellFormed(item)
    ensures ParseLine(FormatLine(item)) == Parsed(item)
  {
    var f := Fields(item);
    FormatLineJoinsFields(item);
    PrintedIntHasNoComma(item.quantity);
    PrintedIntHasNoComma(item.itemNumber);
    PrintedDateHasNoComma(item.creationDate);
    SplitJoin(f);
    ParseIntToString(item.quantity);
    ParseIntToString(item.itemNumber);
    ParseFormatIsoDate(item.creationDate);
  }

  /** Whatever a reader parses has no comma in its text fields. */
  lemma ParsedIsCommaFree(line: string)
    requires ParseLine(line).Parsed?
    ensures ',' !in ParseLine(line).item.itemName && ',' !in ParseLine(line).item.itemType
  {
    SplitFieldsCommaFree(line);
  }

  /** A line whose last field is empty has at most four fields left after the split, so it is skipped. */
  lemma EmptyLastFieldSkipped(name: string, quantity: string, itemNumber: string, itemType: string)
    requires IsFieldText(name) && IsFieldText(quantity) && IsFieldText(itemNumber) && IsFieldText(itemType)
    ensures ParseLine(name + "," + quantity + "," + itemNumber + "," + itemType + ",") == Skipped
  {
    var line := name + "," + quantity + "," + itemNumber + "," + itemType + ",";
    var f := [name, quantity, itemNumber, itemType, ""];
    JoinFive(f);
    assert JoinWithCommas(f) == line by {
      assert name + "," + quantity + "," + itemNumber + "," + itemType + "," + "" == line;
    }
    SplitAtCommasJoin(f);
    assert line[|name|] == ',';
    assert ',' in line;
    assert SplitAtCommas(line) == f;
    assert DropTrailingEmpty(f) == DropTrailingEmpty(f[..4]);
    DropTrailingEmptyPrefix(f[..4]);
    assert |Split(line)| <= 4;
  }

  // ---------------------------------------------------------------- whole stores

  /** The lines a rewrite writer prints for a list, one per item, in list order. */
  function Encode(items: seq<Item>): (lines: seq<string>)
    ensures |lines| == |items|
    ensures forall i {:trigger lines[i]} :: 0 <= i < |items| ==> lines[i] == FormatLine(items[i])
  {
    if items == [] then [] else [FormatLine(items[0])] + Encode(items[1..])
  }

  /** Writing two lists one after the other gives the lines of the joined list. */
  lemma EncodeConcat(a: seq<Item>, b: seq<Item>)
    ensures Encode(a + b) == Encode(a) + Encode(b)
  {
  }

  /** What a reader's loop makes of each line, in order. */
  function ParseLines(lines: seq<string>): (results: seq<LineResult>)
    ensures |results| == |lines|
    ensures forall i :: 0 <= i < |lines| ==> results[i] == ParseLine(lines[i])
  {
    if lines == [] then [] else [ParseLine(lines[0])] + ParseLines(lines[1..])
  }

  /**
    The items collected from a run of line results: parsed items in order, skipped lines
    passed over, and nothing from the first malformed line on, where the exception ends the loop.
  */
  function Collect(results: seq<LineResult>): seq<Item> {
    if results == [] then []
    else
      match results[0]
      case Skipped => Collect(results[1..])
      case Malformed => []
      case Parsed(item) => [item] + Collect(results[1..])
  }

  /** The items a reader returns for a store. */
  function Decode(lines: seq<string>): seq<Item> {
    Collect(ParseLines(lines))
  }

  /** No result that would make a reader stop early. */
  predicate NoMalformed(results: seq<LineResult>) {
    forall i :: 0 <= i < |results| ==> !results[i].Malformed?
  }

  /** A store no line of which makes a reader stop early. */
  predicate Readable(lines: seq<string>) {
    NoMalformed(ParseLines(lines))
  }

  lemma ParseLinesConcat(a: seq<string>, b: seq<string>)
    ensures ParseLines(a + b) == ParseLines(a) + ParseLines(b)
  {
    assert forall i :: 0 <= i < |a| ==> (a + b)[i] == a[i];
    assert forall i :: |a| <= i < |a| + |b| ==> (a + b)[i] == b[i - |a|];
  }

  lemma {:induction false} CollectConcat(x: seq<LineResult>, y: seq<LineResult>)
    requires NoMalformed(x)
    ensures Collect(x + y) == Collect(x) + Collect(y)
  {
    if x == [] {
      assert x + y == y;
    } else {
      assert (x + y)[0] == x[0] && (x + y)[1..] == x[1..] + y;
      CollectConcat(x[1..], y);
    }
  }

  lemma {:induction false} CollectSkips(x: seq<LineResult>, y: seq<LineResult>)
    ensures Collect(x + [Skipped] + y) == Collect(x + y)
  {
    if x == [] {
      assert x + [Skipped] + y == [Skipped] + y && x + y == y;
      assert ([Skipped] + y)[1..] == y;
    } else {
      assert (x + [Skipped] + y)[0] == x[0] && (x + [Skipped] + y)[1..] == x[1..] + [Skipped] + y;
      assert (x + y)[0] == x[0] && (x + y)[1..] == x[1..] + y;
      CollectSkips(x[1..], y);
    }
  }

  lemma {:induction false} CollectStops(x: seq<LineResult>, y: seq<LineResult>)
    ensures Collect(x + [Malformed] + y) == Collect(x)
  {
    if x == [] {
      assert x + [Malformed] + y == [Malformed] + y;
    } else {
      assert (x + [Malformed] + y)[0] == x[0] && (x + [Malformed] + y)[1..] == x[1..] + [Malformed] + y;
      CollectStops(x[1..], y);
    }
  }

  lemma {:induction false} CollectParsed(results: seq<LineResult>, items: seq<Item>)
    requires |results| == |items| && forall i :: 0 <= i < |items| ==> results[i] == Parsed(items[i])
    ensures Collect(results) == items
  {
    if items != [] {
      CollectParsed(results[1..], items[1..]);
      assert items == [items[0]] + items[1..];
    }
  }

  /** Writing well-formed items and reading them back gives the same items, in order. */
  lemma StoreRoundTrip(items: seq<Item>)
    requires forall i :: 0 <= i < |items| ==> WellFormed(items[i])
    ensures Decode(Encode(items)) == items && Readable(Encode(items))
  {
    var lines := Encode(items);
    forall i | 0 <= i < |items|
      ensures ParseLines(lines)[i] == Parsed(items[i])
    {
      LineRoundTrip(items[i]);
    }
    CollectParsed(ParseLines(lines), items);
  }

  lemma ParseLinesSplice(before: seq<string>, line: string, after: seq<string>)
    ensures ParseLines(before + [line] + after) == ParseLines(before) + [ParseLine(line)] + ParseLines(after)
  {
    ParseLinesConcat(before + [line], after);
    ParseLinesConcat(before, [line]);
    assert ParseLines([line]) == [ParseLine(line)];
  }

  /** Reading a concatenation reads the first part, then, if it was readable, the second. */
  lemma DecodeConcat(a: seq<string>, b: seq<string>)
    requires Readable(a)
    ensures Decode(a + b) == Decode(a) + Decode(b)
  {
    ParseLinesConcat(a, b);
    CollectConcat(ParseLines(a), ParseLines(b));
  }

  /** A line that is skipped changes nothing about what a reader returns. */
  lemma DecodeSkipsLine(before: seq<string>, line: string, after: seq<string>)
    requires ParseLine(line).Skipped?
    ensures Decode(before + [line] + after) == Decode(before + after)
  {
    ParseLinesSplice(before, line, after);
    ParseLinesConcat(before, after);
    CollectSkips(ParseLines(before), ParseLines(after));
  }

  /** A malformed line ends the read: nothing after it is returned. */
  lemma DecodeStopsAtMalformed(before: seq<string>, line: string, after: seq<string>)
    requires ParseLine(line).Malformed?
    ensures Decode(before + [line] + after) == Decode(before)
  {
    ParseLinesSplice(before, line, after);
    CollectStops(ParseLines(before), ParseLines(after));
  }

  /** Appending a line that parses to `item` to a readable store adds exactly `item` at the end. */
  lemma DecodeAppendParsed(lines: seq<string>, line: string, item: Item)
    requires Readable(lines) && ParseLine(line) == Parsed(item)
    ensures Decode(lines + [line]) == Decode(lines) + [item]
    ensures Readable(lines + [line])
  {
    ParseLinesConcat(lines, [line]);
    var x, y := ParseLines(lines), ParseLines([line]);
    assert y == [Parsed(item)];
    assert Collect(y) == [item] + Collect(y[1..]);
    CollectConcat(x, y);
    assert forall i :: 0 <= i < |x| ==> (x + y)[i] == x[i];
  }

  /** Appending the line of a well-formed item to a readable store adds exactly that item at the end. */
  lemma DecodeAppendLine(lines: seq<string>, item: Item)
    requires Readable(lines) && WellFormed(item)
    ensures Decode(lines + [FormatLine(item)]) == Decode(lines) + [item]
    ensures Readable(lines + [FormatLine(item)])
  {
    LineRoundTrip(item);
    DecodeAppendParsed(lines, FormatLine(item), item);
  }

  /** A line as `readLine` returns it: no line break inside. */
  predicate IsLineText(line: string) {
    '\n' !in line && '\r' !in line
  }

  /** An item parsed from a line read from a store is well formed. */
  lemma ParsedIsWellFormed(line: string)
    requires IsLineText(line) && ParseLine(line).Parsed?
    ensures WellFormed(ParseLine(line).item)
  {
    SplitFieldsCommaFree(line);
    SplitFieldsAvoid(line, '\n');
    SplitFieldsAvoid(line, '\r');
  }

  lemma {:induction false} CollectWellFormed(results: seq<LineResult>)
    requires forall i :: 0 <= i < |results| && results[i].Parsed? ==> WellFormed(results[i].item)
    ensures forall i :: 0 <= i < |Collect(results)| ==> WellFormed(Collect(results)[i])
  {
    if results != [] {
      CollectWellFormed(results[1..]);
    }
  }

  /** Rewriting a store from what was read from it reads back the same items. */
  lemma DecodeEncodeDecode(lines: seq<string>)
    requires forall i :: 0 <= i < |lines| ==> IsLineText(lines[i])
    ensures Decode(Encode(Decode(lines))) == Decode(lines)
  {
    var results := ParseLines(lines);
    forall i | 0 <= i < |results| && results[i].Parsed?
      ensures WellFormed(results[i].item)
    {
      ParsedIsWellFormed(lines[i]);
    }
    CollectWellFormed(results);
    StoreRoundTrip(Decode(lines));
  }

  /** How one line result moves a reader on: `vals` is what was collected before index `i`. */
  lemma CollectStep(results: seq<LineResult>, i: nat, vals: seq<Item>)
    requires i < |results| && vals + Collect(results[i..]) == Collect(results)
    ensures results[i].Malformed? ==> vals == Collect(results)
    ensures results[i].Skipped? ==> vals + Collect(results[i + 1..]) == Collect(results)
    ensures results[i].Parsed? ==>
      (vals + [results[i].item]) + Collect(results[i + 1..]) == Collect(results)
  {
    assert results[i..][0] == results[i] && results[i..][1..] == results[i + 1..];
    if results[i].Malformed? {
      assert vals + [] == vals;
    } else if results[i].Parsed? {
      assert (vals + [results[i].item]) + Collect(results[i + 1..])
          == vals + ([results[i].item] + Collect(results[i + 1..]));
    }
  }

  // ---------------------------------------------------------------- the files


  /**
    A reader's loop: every parsed line becomes a new item object; the first malformed line
    throws (`escaped`), which ends the loop with the objects made so far.
  */
  method ReadItems(lines: seq<string>) returns (items: seq<InventoryItem>, escaped: bool)
    ensures Values(items) == Decode(lines)
    ensures Distinct(items) && forall o :: o in items ==> fresh(o)
    ensures escaped <==> !Readable(lines)
  {
    items := [];
    escaped := false;
    ghost var vals: seq<Item> := [];
    ghost var results := ParseLines(lines);
    var i := 0;
    while i < |lines|
      invariant 0 <= i <= |lines|
      invariant forall k :: 0 <= k < i ==> !results[k].Malformed?
      invariant vals + Collect(results[i..]) == Collect(results)
      invariant Values(items) == vals
      invariant Distinct(items) && forall o :: o in items ==> fresh(o)
    {
      CollectStep(results, i, vals);
      var r := ParseLine(lines[i]);
      if r.Malformed? {
        escaped := true;
        return;
      }
      if r.Parsed? {
        items := AppendNew(items, r.item);
        vals := vals + [r.item];
      }
      i := i + 1;
    }
  }

  /** The lines a rewrite writer prints, built in list order. */
  method FormatLines(items: seq<InventoryItem>) returns (lines: seq<string>)
    ensures lines == Encode(Values(items))
  {
    lines := [];
    for i := 0 to |items|
      invariant |lines| == i
      invariant forall k :: 0 <= k < i ==> lines[k] == FormatLine(items[k].Value())
    {
      lines := lines + [FormatLine(items[i].Value())];
    }
  }

  /** The two stores, each as its sequence of lines; a missing file reads like an empty one. */
  class CsvFiles {
    var inventoryFile: seq<string>
    var deletedFile: seq<string>

    constructor (inventoryFile: seq<string>, deletedFile: seq<string>)
      ensures this.inventoryFile == inventoryFile && this.deletedFile == deletedFile
    {
      this.inventoryFile := inventoryFile;
      this.deletedFile := deletedFile;
    }

    /**
      The start-up load: appends an object for every parsed line to the caller's list, which is
      not cleared first. A malformed line throws an exception only IOException is caught for, so
      it escapes (`escaped`), and the objects appended before it stay in the list.
    */
    method LoadExistingDataFromInventoryCSV(list: seq<InventoryItem>)
      returns (result: seq<InventoryItem>, escaped: bool)
      ensures |result| >= |list| && result[..|list|] == list
      ensures Values(result[|list|..]) == Decode(inventoryFile)
      ensures Distinct(result[|list|..]) && forall o :: o in result[|list|..] ==> fresh(o)
      ensures escaped <==> !Readable(inventoryFile)
    {
      var added;
      added, escaped := ReadItems(inventoryFile);
      result := list + added;
      assert result[..|list|] == list && result[|list|..] == added;
    }

    /** Rewrites the inventory store with exactly one line per list item, in list order. */
    method WriteCreatedItemToInventoryCSV(items: seq<InventoryItem>)
      modifies this`inventoryFile
      ensures inventoryFile == Encode(Values(items))
    {
      inventoryFile := FormatLines(items);
    }

    /** Appends one line to the inventory store; the earlier lines stay as they were. */
    method WriteRestoredItemToCSV(item: InventoryItem)
      modifies this`inventoryFile
      ensures inventoryFile == old(inventoryFile) + [FormatLine(item.Value())]
    {
      inventoryFile := inventoryFile + [FormatLine(item.Value())];
    }

    /** Rewrites the deleted-items store with exactly one line per list item, in list order. */
    method WriteItemsToDeletedItemsCSV(items: seq<InventoryItem>)
      modifies this`deletedFile
      ensures deletedFile == Encode(Values(items))
    {
      deletedFile := FormatLines(items);
    }

    /** Appends one line to the deleted-items store; the earlier lines stay as they were. */
    method WriteDeletedItemToCSV(item: InventoryItem)
      modifies this`deletedFile
      ensures deletedFile == old(deletedFile) + [FormatLine(item.Value())]
    {
      deletedFile := deletedFile + [FormatLine(item.Value())];
    }

    method ReadItemsFromInventoryCSVFile() returns (items: seq<InventoryItem>)
      ensures Values(items) == Decode(inventoryFile)
      ensures Distinct(items) && forall o :: o in items ==> fresh(o)
    {
      var escaped;
      items, escaped := ReadItems(inventoryFile);
    }

    method ReadItemsFromDeletedCSVFile() returns (items: seq<InventoryItem>)
      ensures Values(items) == Decode(deletedFile)
      ensures Distinct(items) && forall o :: o in items ==> fresh(o)
    {
      var escaped;
      items, escaped := ReadItems(deletedFile);
    }
  }
}
