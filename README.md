# Wedding decor inventory, modelled in Dafny

This project models a desktop inventory of wedding decorations. The active items live in an
in-memory list. They are backed by two line-based stores, `inventory.csv` and
`deleted_items.csv`. Buttons create, update, soft-delete, permanently delete and restore
items, list the active and the deleted items by type, and build a report sorted one of three
ways. The model has these parts:

- **The record.** `Model.InventoryItem` is a class whose setters change its fields in place.
  `Model.Item` is its value, and `Model.Values` maps a list of objects to their values.
- **The stores and the line codec** (`CsvHandler`). Each store is its sequence of lines.
  A line is written as `name,quantity,itemNumber,itemType,yyyy-MM-dd`. It is read back with
  Java's `split(",")`, `Integer.parseInt` and `LocalDate.parse`, each modelled exactly over
  ASCII (`JavaText`, `JavaInt`, `Dates`). A reader skips lines that do not have five fields.
  It stops at the first line whose number or date does not parse. The writers either rewrite
  a store from a list or append one line.
- **The item-number allocator** (`RandomNumberGenerator`). It is the type's base plus a draw
  in [0, 100), drawn again while it clashes with a same-type number.
- **The validators** (`DataValidator`, `DataValidatorForUpdates`, `DataValidatorForUpdate`,
  `ValidatingItemNumber`). Each is a predicate or function with the Java method's name.
- **The listings** (`Listings`, `Sorting`, `GenerateReports`, `UpdateInventoryTextArea`,
  `UpdateDeletedItemsTextArea`). The `TreeMap` grouping by type is a loop proved to build
  the unique grouping. The stable stream sorts are an insertion sort, proved sorted, a
  permutation and stable. Rows are numbered per section, and long names are truncated.
- **The update confirmation** (`PromptForUpdateConfirmation`): sets one field of the selected
  object, then rewrites the store.
- **The button listeners.** `GuiDecisions` gives each listener's chain of early returns as a
  pure decision: where the chain stops (`Refused(outcome)`), or the change it makes
  (`Accepted(...)`). `GuiComponents.InventoryManager` holds the shared list and the stores.
  Its methods are the listener bodies, and each is proved to do exactly what its decision
  says: a refused decision changes nothing, and an accepted one makes exactly that change to
  the list and the stores.

Every dialog answer is a parameter. A closed dialog is `None`, a confirmation is a `bool`,
the one/all/cancel choice is a `Choice`, the random draws are a sequence, and today's date is
a value. As the code does, the deleted list is re-read from its store at the start of every
listener (and once more at `GUIComponentInitializer.java:744`). The listeners call five
validators as `DataValidator` or `ValidatingItemNumber` methods, but neither
`DataValidator.java` nor `ValidatingItemNumber.java` defines them. They are modelled as their
evident counterparts:

- `isValidateStringInput` is "not `isInputEmpty` and `isValidItemName`".
- `isValidateQuantityInput` is "not `isInputEmpty` and `isQuantityInputValid`".
- `ValidatingItemNumber.isValidItemNumber` is `DataValidatorForUpdates.isUpdatedItemNumberValid`.
- `validateInventoryItemsList` and `validateDeletedItemsList` are emptiness checks that
  only show a message.

Beyond the five outcomes the dialogs name (`Success`, `NoChange`, `NotFound`, `Invalid`,
`Cancelled`), the outcome type has three more cases:

- `Duplicate`: a new item number is already used.
- `Empty`: the early "no items" exits.
- `Exhausted`: the supplied draws all clashed.

The code itself exposes some behaviour, and the model proves it:

- Restoring one item never checks its number against the active items.
- Changing an item's type keeps a number that is then outside the new type's block.
- The name case of an update reports "no change" before it checks the characters.
- An update may set a quantity to zero or a negative number.
- A digits-only quantity of ten digits passes the check and then overflows `parseInt`.
- A line whose last field is empty loses that field in the split and is skipped.
- The allocator avoids only numbers of the same type.

## Model

| member | source | states |
|---|---|---|
| JavaInt.NatToStringValue | src/CSVReaderWriter/CSVHandler.java:91-92 | the decimal text of a natural number is a non-empty run of digits whose value is the number |
| JavaInt.IntToStringShape | src/CSVReaderWriter/CSVHandler.java:91-92 | a printed int is non-empty and all digits, except a leading '-' exactly for a negative value |
| JavaInt.ParseIntToString | src/CSVReaderWriter/CSVHandler.java:56-57 | `parseInt` of the printed text of any int gives that int back |
| JavaInt.ParseIntOfDigits | src/gui_components/GUIComponentInitializer.java:159 | every run of one to nine digits parses, to its decimal value |
| Dates.FormatIsoDateShape | src/CSVReaderWriter/CSVHandler.java:91-92 | a printed date is ten characters, digits with '-' at positions 4 and 7 |
| Dates.ParseFormatIsoDate | src/CSVReaderWriter/CSVHandler.java:59 | `LocalDate.parse` of a printed date gives the same date |
| Dates.LeapDayIffLeapYear | src/CSVReaderWriter/CSVHandler.java:59 | for every year 0000-9999, 29 February of that year parses, to that day, exactly when the year is a leap year |
| JavaText.CollapseIsCollapsed | src/gui_components/GUIComponentInitializer.java:134 | after `replaceAll("\\s+", " ")` the only whitespace is ' ', never two in a row |
| JavaText.CollapseOfCollapsed | src/gui_components/GUIComponentInitializer.java:134 | collapsing text that is already collapsed changes nothing |
| JavaText.TrimOfTrimmed | src/gui_components/GUIComponentInitializer.java:134 | text with nothing to strip at either end is its own trim |
| JavaText.TrimEmpty | src/gui_components/GUIComponentInitializer.java:134 | `trim()` gives the empty string exactly when every character is at or below U+0020 |
| JavaText.NormalizeShape | src/gui_components/GUIComponentInitializer.java:134 | normalised input has no blank ends, no whitespace but ' ' and no double space |
| JavaText.NormalizeIdempotent | src/gui_components/GUIComponentInitializer.java:134 | normalising twice is normalising once |
| JavaText.NormalizeVisible | src/gui_components/GUIComponentInitializer.java:134 | text without any character at or below U+0020 normalises to itself |
| JavaText.NormalizeEmpty | src/gui_components/GUIComponentInitializer.java:255-264 | input normalises to the empty string, and is rejected as empty, exactly when it is all blanks |
| JavaText.SplitAtCommasJoin | src/CSVReaderWriter/CSVHandler.java:50 | splitting comma-joined comma-free fields at every comma gives the fields back, empty ones included |
| JavaText.SplitJoin | src/CSVReaderWriter/CSVHandler.java:50 | `split(",")` inverts the comma join of two or more comma-free fields whose last is not empty |
| JavaText.SplitFieldsCommaFree | src/CSVReaderWriter/CSVHandler.java:50 | no field that `split(",")` returns holds a comma |
| JavaText.SplitFieldsAvoid | src/CSVReaderWriter/CSVHandler.java:50 | no field that `split(",")` returns holds a character the text does not hold |
| JavaText.DropTrailingEmptyPrefix | src/CSVReaderWriter/CSVHandler.java:50 | `split` keeps a prefix of the fields that ends in a non-empty field, dropping only empty ones |
| JavaText.StrLeReflexive | src/util/GenerateReports.java:31 | `compareTo` order: every string is at most itself |
| JavaText.StrLeTotal | src/util/GenerateReports.java:31 | `compareTo` order: any two strings are comparable |
| JavaText.StrLeAntisymmetric | src/util/GenerateReports.java:31 | `compareTo` order: strings at most each other are equal |
| JavaText.StrLeTransitive | src/util/GenerateReports.java:31 | `compareTo` order is transitive |
| Model.InventoryItem.constructor | src/model/InventoryItem.java:19-25 | the new object holds all five arguments unchanged |
| Model.InventoryItem.SetItemName | src/model/InventoryItem.java:33-35 | only the name changes, to any value given |
| Model.InventoryItem.SetQuantity | src/model/InventoryItem.java:43-45 | only the quantity changes, to any int given |
| Model.InventoryItem.SetItemNumber | src/model/InventoryItem.java:53-55 | only the item number changes, to any int given |
| Model.InventoryItem.SetItemType | src/model/InventoryItem.java:63-65 | only the type changes, to any value given |
| Model.InventoryItem.SetCreationDate | src/model/InventoryItem.java:73-75 | only the date changes, to the value given |
| Model.SetThenGet | src/model/InventoryItem.java:38-55 | a getter called after its setter returns the value set, whatever int it is |
| Model.AppendNew | src/CSVReaderWriter/CSVHandler.java:236-237 | `add(new InventoryItem(...))` appends one new object holding the item, keeps the objects before it, and keeps the objects distinct |
| CsvHandler.ParseLine | src/CSVReaderWriter/CSVHandler.java:50-59 | a line is skipped exactly when its split does not give five fields; a parsed item takes name and type from fields 0 and 3 |
| CsvHandler.LineRoundTrip | src/CSVReaderWriter/CSVHandler.java:91-92 | the written line of an item whose name and type hold no comma or line break parses back to the same item, an empty type included |
| CsvHandler.ParsedIsCommaFree | src/CSVReaderWriter/CSVHandler.java:50 | whatever a reader parses has no comma in its name or type |
| CsvHandler.ParsedIsWellFormed | src/CSVReaderWriter/CSVHandler.java:223-237 | an item parsed from a line without line breaks, as `readLine` returns it, is well formed: its name and type hold no comma or line break |
| CsvHandler.EmptyLastFieldSkipped | src/CSVReaderWriter/CSVHandler.java:50-53 | a line whose fifth field is empty keeps at most four fields after the split and is skipped |
| CsvHandler.Encode | src/CSVReaderWriter/CSVHandler.java:88-92 | a rewrite prints exactly one line per item, the item's line, in list order |
| CsvHandler.EncodeConcat | src/CSVReaderWriter/CSVHandler.java:110-114 | appending the lines of a list to the lines of another gives the lines of the joined list |
| CsvHandler.StoreRoundTrip | src/CSVReaderWriter/CSVHandler.java:217-244 | reading a store written from well-formed items gives the same items in order, and no line stops the read |
| CsvHandler.DecodeConcat | src/CSVReaderWriter/CSVHandler.java:221-239 | reading a concatenation reads the first part and then, when nothing in it stops the read, the second |
| CsvHandler.DecodeSkipsLine | src/CSVReaderWriter/CSVHandler.java:227 | a line without five fields is passed over and the read continues |
| CsvHandler.DecodeStopsAtMalformed | src/CSVReaderWriter/CSVHandler.java:229-240 | a bad number or date ends the read: nothing after that line is returned |
| CsvHandler.DecodeAppendParsed | src/CSVReaderWriter/CSVHandler.java:110-114 | appending a line that parses to an item adds exactly that item at the end of what is read |
| CsvHandler.DecodeAppendLine | src/CSVReaderWriter/CSVHandler.java:110-114 | appending the line of a well-formed item adds exactly that item at the end of what is read |
| CsvHandler.DecodeEncodeDecode | src/CSVReaderWriter/CSVHandler.java:136-142 | for any store of lines without line breaks, rewriting it from what was read from it reads back the same items |
| CsvHandler.ReadItems | src/CSVReaderWriter/CSVHandler.java:221-239 | the reader loop returns new distinct objects holding what `Decode` reads, and throws exactly when a line's number or date fails to parse |
| CsvHandler.FormatLines | src/CSVReaderWriter/CSVHandler.java:88-93 | the writer loop prints exactly the lines `Encode` gives for the list's values |
| CsvHandler.CsvFiles.LoadExistingDataFromInventoryCSV | src/CSVReaderWriter/CSVHandler.java:39-72 | the caller's list is kept as a prefix and new objects for the parsed lines follow it; a bad field escapes, keeping what was added |
| CsvHandler.CsvFiles.WriteCreatedItemToInventoryCSV | src/CSVReaderWriter/CSVHandler.java:85-97 | the inventory store becomes exactly the lines of the list |
| CsvHandler.CsvFiles.WriteRestoredItemToCSV | src/CSVReaderWriter/CSVHandler.java:110-120 | the inventory store gains exactly the item's line at the end; earlier lines stay |
| CsvHandler.CsvFiles.WriteItemsToDeletedItemsCSV | src/CSVReaderWriter/CSVHandler.java:136-148 | the deleted store becomes exactly the lines of the list |
| CsvHandler.CsvFiles.WriteDeletedItemToCSV | src/CSVReaderWriter/CSVHandler.java:164-174 | the deleted store gains exactly the item's line at the end; earlier lines stay |
| CsvHandler.CsvFiles.ReadItemsFromInventoryCSVFile | src/CSVReaderWriter/CSVHandler.java:217-244 | new distinct objects holding what the inventory store reads as, the exception swallowed |
| CsvHandler.CsvFiles.ReadItemsFromDeletedCSVFile | src/CSVReaderWriter/CSVHandler.java:182-209 | new distinct objects holding what the deleted store reads as, the exception swallowed |
| RandomNumberGenerator.ExistingItemNumbers | src/util/RandomNumberGenerator.java:43-46 | a number is in the set exactly when an item of the given type carries it |
| RandomNumberGenerator.FirstFreeDrawNone | src/util/RandomNumberGenerator.java:48-53 | the retry loop does not settle exactly when every draw clashes with a taken number |
| RandomNumberGenerator.FirstFreeDrawSome | src/util/RandomNumberGenerator.java:48-53 | a settled number is base plus the first free draw, lies in [base, base + 100) and is not taken |
| RandomNumberGenerator.GeneratedNumberInRange | src/util/RandomNumberGenerator.java:28-53 | a generated number lies in [0, 400) |
| RandomNumberGenerator.FullBlockExhausts | src/util/RandomNumberGenerator.java:49-53 | with all one hundred numbers of the block taken, no draws end the loop |
| RandomNumberGenerator.GenerateRandomNumber | src/util/RandomNumberGenerator.java:24-56 | the loop returns the first base-plus-draw that no same-type item holds, and leaves the list unchanged |
| RandomNumberGenerator.BaseBlockIsValidatorRange | src/util/RandomNumberGenerator.java:28-40 | for each offered type, the block from its base is exactly what the update validator accepts |
| RandomNumberGenerator.OtherTypesIgnored | src/util/RandomNumberGenerator.java:44 | a number held by an item of another type can be generated again |
| Sorting.KeyLeTotal | src/util/GenerateReports.java:51 | each comparator orders any two items |
| Sorting.KeyLeTransitive | src/util/GenerateReports.java:51 | each comparator is transitive |
| Sorting.SortBySorted | src/util/GenerateReports.java:50-52 | the stream sort orders its input by the comparator |
| Sorting.SortByPermutes | src/util/GenerateReports.java:50-52 | the stream sort keeps every element, as often as it occurs |
| Sorting.SortByStable | src/util/GenerateReports.java:151-153 | the stream sort keeps items the comparator calls equal in input order |
| Listings.FilterTypeCount | src/util/GenerateReports.java:32-38 | a type's group holds each item of that type as often as the input does, and nothing else |
| Listings.AddToGroupKeys | src/util/GenerateReports.java:34-36 | `put` keeps the map's keys ascending and adds the item's type if it was missing |
| Listings.AddToGroupLookup | src/util/GenerateReports.java:37 | `add` puts the item at the end of its type's list and changes no other type's list |
| Listings.AddToGroupGrouped | src/util/GenerateReports.java:32-38 | one pass of the fill loop turns the grouping of the items so far into the grouping with one more |
| Listings.GroupByType | src/util/GenerateReports.java:31-38 | the fill loop builds the map with ascending keys, no empty list, and under each type its items in input order |
| Listings.GroupedKeys | src/util/GenerateReports.java:31-38 | a type has an entry exactly when some item has that type |
| Listings.GroupedByUnique | src/util/GenerateReports.java:31-38 | the map's content depends on the input only |
| Listings.DisplayNameBound | src/util/UpdateInventoryTextArea.java:71-72 | a shown name is at most 35 characters, the name itself exactly when it is short enough, else its first 32 and "..." |
| Listings.NumberRows | src/util/GenerateReports.java:54-59 | rows list the sorted items in order, numbered from 1 |
| Listings.BuildSections | src/util/GenerateReports.java:41-61 | one section per map entry, in key order, each its group ordered and numbered |
| Listings.ListSections | src/util/GenerateReports.java:31-61 | sections in ascending type order cover every type, each with its type's items ordered and numbered; every item appears exactly once |
| Listings.SectionPermutes | src/util/GenerateReports.java:32-38 | a section holds exactly the items of its type, each as often as it occurs |
| Listings.SectionSorted | src/util/GenerateReports.java:50-52 | under a comparator a section is sorted by it and equal items keep input order |
| Listings.SectionsCoverTypes | src/util/GenerateReports.java:41-43 | a type has a section exactly when some item has that type |
| Listings.NoItemsNoSections | src/util/UpdateDeletedItemsTextArea.java:47-73 | listing no items gives no sections |
| GenerateReports.GenerateReportSortedAlphabetically | src/util/GenerateReports.java:25-64 | fixed title lines, then the type sections with each group ordered by name |
| GenerateReports.GenerateReportContentSortedByItemNumber | src/util/GenerateReports.java:78-114 | fixed title lines, then the type sections with each group ordered by item number |
| GenerateReports.GenerateReportContentSortedByQuantity | src/util/GenerateReports.java:129-169 | fixed title lines, then the type sections with each group ordered by descending quantity |
| GenerateReports.ReportTitleNamesSort | src/util/GenerateReports.java:27-131 | the title lines the three builders write (lines 27, 80 and 131) are pairwise different, so the title tells which sort a report used |
| GenerateReports.QuantityReportOrder | src/util/GenerateReports.java:151-153 | within a section larger quantities come first, and equal quantities keep list order |
| GenerateReports.ItemNumberReportOrder | src/util/GenerateReports.java:96-98 | within a section item numbers ascend |
| UpdateInventoryTextArea.ReloadTextArea | src/util/UpdateInventoryTextArea.java:24-82 | no new text exactly for an empty list; otherwise the header and the type sections ordered by name with truncated names |
| UpdateDeletedItemsTextArea.PopulateTextArea | src/util/UpdateDeletedItemsTextArea.java:27-77 | the header and the type sections in file order with truncated names; only the header for no items |
| UpdateDeletedItemsTextArea.DeletedSectionInFileOrder | src/util/UpdateDeletedItemsTextArea.java:47-71 | each section holds its type's deleted items in file order, names at most 35 characters |
| PromptForUpdateConfirmation.ShowUpdateConfirmationDialog | src/util/PromptForUpdateConfirmation.java:28-71 | declining changes nothing; an unparsable number changes nothing; otherwise the field is set as the switch says and the store is rewritten from the list |
| PromptForUpdateConfirmation.SetSelectedField | src/util/PromptForUpdateConfirmation.java:47-60 | the switch sets the named field, fails only when `parseInt` does, and then changes nothing |
| PromptForUpdateConfirmation.ApplyUpdateChangesOneField | src/util/PromptForUpdateConfirmation.java:47-60 | an update changes the field its option names and no other, never the date |
| PromptForUpdateConfirmation.ApplyUpdateSetsField | src/util/PromptForUpdateConfirmation.java:47-60 | the named field takes the new value; an unknown option leaves the item as it is |
| PromptForUpdateConfirmation.ApplyUpdateFails | src/util/PromptForUpdateConfirmation.java:49-58 | an update fails exactly for a number field whose text `parseInt` rejects |
| PromptForUpdateConfirmation.ApplyUpdatePrintedNumber | src/gui_components/GUIComponentInitializer.java:371-373 | a number handed over as an int's text is stored as that same int |
| DataValidator.MatchesDigits | src/validators/DataValidator.java:67-77 | `matches("\\d+")` holds exactly for a non-empty run of ASCII digits |
| DataValidator.MatchesNameChars | src/validators/DataValidator.java:107-119 | `matches("[a-zA-Z0-9\\s]+")` holds exactly for non-empty text of letters, digits and `\s` blanks |
| DataValidator.BlankIsNotEmpty | src/validators/DataValidator.java:49-59 | a blank is not empty input until it is normalised |
| DataValidator.ValidQuantityParses | src/validators/DataValidator.java:67-77 | a valid quantity text of at most nine digits parses, to a number that is not negative |
| DataValidator.ValidQuantityMayOverflow | src/validators/DataValidator.java:67-77 | ten nines pass the quantity check and then overflow `parseInt` |
| DataValidator.NormalizedValidNameIsPlain | src/gui_components/GUIComponentInitializer.java:134-137 | a valid normalised name holds no comma and no line break |
| DataValidatorForUpdates.DoesUpdatedItemNumberExist | src/validators/DataValidatorForUpdates.java:100-110 | true exactly when some listed item carries the number |
| DataValidatorForUpdates.ItemNumberRangesDisjoint | src/validators/DataValidatorForUpdates.java:23-71 | a number is valid for at most one type |
| DataValidatorForUpdates.ValidOnlyForKnownTypes | src/validators/DataValidatorForUpdates.java:23-71 | only the three offered types accept any number |
| DataValidatorForUpdates.ValidRangeOfKnownType | src/validators/DataValidatorForUpdates.java:26-56 | each offered type accepts exactly one hundred numbers from a multiple of one hundred |
| DataValidatorForUpdate.ListChecksOpposite | src/validators/DataValidatorForUpdate.java:12-23 | the list check is the negation of `isCSVFileEmpty` |
| DataValidatorForUpdate.ItemNumberCheckIsQuantityCheck | src/validators/DataValidatorForUpdate.java:26-47 | the item-number check agrees with the quantity check on every text |
| DataValidatorForUpdate.ItemNumberCheckRejects | src/validators/DataValidatorForUpdate.java:26-47 | the empty text and any text with a non-digit are rejected; all-digit text is accepted |
| ValidatingItemNumber.PrintedRanges | src/util/ValidatingItemNumber.java:14-19 | each of the three fixed range texts is the printed form of its lowest and highest number around " - " |
| ValidatingItemNumber.IntToStringOfThreeDigits | src/util/ValidatingItemNumber.java:14-19 | a number from 100 to 999 prints as its hundreds, tens and units digits |
| ValidatingItemNumber.RangeTextBounds | src/util/ValidatingItemNumber.java:12-23 | a range text names the lowest and the highest number the validator accepts, and it accepts exactly those in between |
| ValidatingItemNumber.UnknownIffNothingValid | src/util/ValidatingItemNumber.java:20-21 | "Unknown" is returned exactly for the types that accept no number |
| GuiDecisions.FirstIndexOf | src/gui_components/GUIComponentInitializer.java:283-288 | the position found carries the number and no earlier one does; none found means no item carries it |
| GuiDecisions.LookupInput | src/gui_components/GUIComponentInitializer.java:247-296 | an accepted lookup is a position in the list |
| GuiDecisions.FieldValueCases | src/gui_components/GUIComponentInitializer.java:307-308 | each of the four option names selects its own case of the switch |
| GuiDecisions.ItemNumberInputAccepted | src/gui_components/GUIComponentInitializer.java:247-277 | a number is accepted exactly when the normalised text is digits that `parseInt` reads, and is then not negative |
| GuiDecisions.ExistsIffFound | src/gui_components/GUIComponentInitializer.java:352-359 | the existence scan and the lookup loop agree |
| GuiDecisions.LookupInputAccepted | src/gui_components/GUIComponentInitializer.java:283-296 | a lookup lands on the first item carrying the number typed |
| GuiDecisions.AbsentNumberNotFound | src/gui_components/GUIComponentInitializer.java:291-296 | a number no item carries is NotFound in update, delete, permanent delete and restore |
| GuiDecisions.CreateAccepted | src/gui_components/GUIComponentInitializer.java:126-204 | a created item has the normalised valid name, a quantity of at least 1, the chosen type, today's date and a free same-type number in its block, and exists only after confirmation |
| GuiDecisions.CreatedItemIsStorable | src/gui_components/GUIComponentInitializer.java:166-204 | an item created with an offered type reads back from its line unchanged, and its number passes the update validator |
| GuiDecisions.KnownTypesAreFieldText | src/gui_components/GUIComponentInitializer.java:166 | the offered type names hold no comma or line break |
| GuiDecisions.DeclinedCreate | src/gui_components/GUIComponentInitializer.java:199 | a declined confirmation creates nothing |
| GuiDecisions.DeclinedUpdate | src/util/PromptForUpdateConfirmation.java:40-44 | a declined confirmation updates nothing |
| GuiDecisions.DeclinedDelete | src/gui_components/GUIComponentInitializer.java:639 | a declined confirmation deletes nothing, softly or permanently |
| GuiDecisions.DeclinedRestoreAll | src/gui_components/GUIComponentInitializer.java:949-954 | with the confirmation declined, restoring all (or cancelling the choice) restores nothing |
| GuiDecisions.UpdateAcceptedAt | src/gui_components/GUIComponentInitializer.java:229-535 | an accepted update is confirmed, changes the first item carrying the typed number, and never changes its date |
| GuiDecisions.UpdateNumberAccepted | src/gui_components/GUIComponentInitializer.java:336-373 | a new number is taken only in the type's block, different from the current one and from every active number; only the number changes |
| GuiDecisions.NumberFieldAccepted | src/gui_components/GUIComponentInitializer.java:308-373 | the number case changes only the number, to one in range that no active item holds |
| GuiDecisions.UpdateKeepsNumbersUnique | src/gui_components/GUIComponentInitializer.java:229-535 | an update never gives two active items the same number |
| GuiDecisions.TypeChangeKeepsNumber | src/gui_components/GUIComponentInitializer.java:401-413 | any other type is accepted with the number kept; a number that was in the old type's block is then outside the new type's block |
| GuiDecisions.SameNameBeforeCharset | src/gui_components/GUIComponentInitializer.java:437-463 | retyping a current name the validator would reject gives NoChange, not Invalid |
| GuiDecisions.PrintedIntIsSignedDigits | src/gui_components/GUIComponentInitializer.java:503 | the text of any int passes `matches("-?\\d+")` |
| GuiDecisions.QuantityTakesAnyInt | src/gui_components/GUIComponentInitializer.java:503-527 | the quantity case takes any int but the current one, zero and negatives included, and stores it |
| GuiDecisions.SoftDeleteAccepted | src/gui_components/GUIComponentInitializer.java:554-639 | an accepted delete is confirmed and takes the first active item carrying the number |
| GuiDecisions.PermanentDeleteOne | src/gui_components/GUIComponentInitializer.java:708-791 | permanent delete of one removes exactly the first item carrying the number, after confirmation |
| GuiDecisions.PermanentDeleteAll | src/gui_components/GUIComponentInitializer.java:805-817 | permanent delete of all happens exactly when the list is not empty and the user confirms, and leaves nothing |
| GuiDecisions.RestoreAccepted | src/gui_components/GUIComponentInitializer.java:861-967 | a restore moves at least one item and loses or duplicates none; restoring all moves the list in order after confirmation |
| GuiComponents.FindItem | src/gui_components/GUIComponentInitializer.java:283-288 | the lookup loop returns the first position whose object carries the number |
| GuiComponents.RemoveFirst | src/gui_components/GUIComponentInitializer.java:643 | `remove(Object)` drops one object when it is present and otherwise changes nothing |
| GuiComponents.RemoveFirstAt | src/gui_components/GUIComponentInitializer.java:643 | removing the object found first at a position removes exactly that position |
| GuiComponents.LookupItem | src/gui_components/GUIComponentInitializer.java:247-296 | the prompt and the loop stop or land exactly as `LookupInput` says |
| GuiComponents.RemoveAt | src/gui_components/GUIComponentInitializer.java:784 | removing the object at a position keeps the others, in order and distinct |
| GuiComponents.SortChoiceKey | src/gui_components/GUIComponentInitializer.java:1025-1036 | "By Quantity" and "By Item Number" choose their comparators, every other choice the name order |
| GuiComponents.ReportContent | src/gui_components/GUIComponentInitializer.java:1025-1036 | the switch yields the chosen builder's own title and underline, then the list sorted by the chosen comparator, every item once |
| GuiComponents.InventoryManager.constructor | src/gui_components/GUIComponentInitializer.java:54-56 | the listeners share the list they are given |
| GuiComponents.InventoryManager.ViewInventory | src/gui_components/GUIComponentInitializer.java:80-89 | the active list listed by type and name, or nothing for an empty list |
| GuiComponents.InventoryManager.ViewDeletedItems | src/gui_components/GUIComponentInitializer.java:97-108 | the deleted store read and listed by type in file order |
| GuiComponents.InventoryManager.Create | src/gui_components/GUIComponentInitializer.java:118-220 | refused: nothing changes; accepted: one new object holding the item at the end, and the store rewritten from the list |
| GuiComponents.InventoryManager.CreateCheck | src/gui_components/GUIComponentInitializer.java:126-199 | the create dialogs stop or accept exactly as `CreateDecision` says |
| GuiComponents.InventoryManager.AddItem | src/gui_components/GUIComponentInitializer.java:200-204 | one new object at the end, the store then holding exactly the list's lines |
| GuiComponents.InventoryManager.Update | src/gui_components/GUIComponentInitializer.java:229-545 | refused: no value or store changes; accepted: the list keeps its objects, only the selected value changes, and the store matches the list |
| GuiComponents.InventoryManager.UpdateSelected | src/gui_components/GUIComponentInitializer.java:306-535 | the field case stops or changes the selected value exactly as `UpdateField` says |
| GuiComponents.InventoryManager.ConfirmUpdate | src/util/PromptForUpdateConfirmation.java:28-71 | only the selected object's value can change, and after a change the store matches the list |
| GuiComponents.InventoryManager.SoftDelete | src/gui_components/GUIComponentInitializer.java:554-664 | refused: nothing changes; accepted: the item's line is appended to the deleted store, the object leaves the list, the rest keep their order, and the store matches the list |
| GuiComponents.InventoryManager.SoftDeleteCheck | src/gui_components/GUIComponentInitializer.java:559-639 | the delete dialogs stop or accept exactly as `SoftDeleteDecision` says |
| GuiComponents.InventoryManager.MoveToDeleted | src/gui_components/GUIComponentInitializer.java:641-651 | the item's line appended to the deleted store, its object removed, the inventory store rewritten from the rest |
| GuiComponents.InventoryManager.PermanentDelete | src/gui_components/GUIComponentInitializer.java:671-830 | refused: the deleted store is unchanged; accepted: it holds exactly the lines of what remains |
| GuiComponents.InventoryManager.PermanentDeleteCheck | src/gui_components/GUIComponentInitializer.java:675-817 | the dialogs, with the re-read after the number is typed, give exactly what `PermanentDeleteDecision` keeps |
| GuiComponents.InventoryManager.Restore | src/gui_components/GUIComponentInitializer.java:837-985 | refused: nothing changes; accepted: the moved items join the list and the inventory store in order, and the deleted store holds what stays |
| GuiComponents.InventoryManager.RestoreCheck | src/gui_components/GUIComponentInitializer.java:841-954 | the restore dialogs give exactly the objects `RestoreDecision` moves and keeps |
| GuiComponents.InventoryManager.RestoreOne | src/gui_components/GUIComponentInitializer.java:921-930 | the deleted store holds what stays; the item's line and object are appended; a synced store stays synced |
| GuiComponents.InventoryManager.RestoreAll | src/gui_components/GUIComponentInitializer.java:955-967 | all objects and lines are appended in order, then the deleted store is emptied; a synced store stays synced |
| GuiComponents.InventoryManager.RestoreEach | src/gui_components/GUIComponentInitializer.java:957-962 | the loop appends every object to the list and its line to the store, in order |
| GuiComponents.InventoryManager.GenerateReport | src/gui_components/GUIComponentInitializer.java:994-1036 | no report exactly for an empty list, a declined confirmation or a closed sort dialog; otherwise the title and underline of the chosen sort, then the report under the chosen comparator |

## Left out

- Swing: dialogs and message boxes are parameters or outcomes. Text areas are left out of the
  listener methods; their content is the returned `Listing`.
- Column padding of `String.format`, the "MMMM d, yyyy" and "MM/dd/yy" date formats and the
  report's line breaks are presentation. A `Listing` keeps the title lines, the type of each
  section and each row's number, item and shown name.
- Writing the report to the download folder with a date-stamped name is file I/O
  (`GUIComponentInitializer.java:1039-1052`).
- The exit button and the panel layout (`GUIComponentInitializer.java:1062-1109`) are window
  handling.
- The start-up frame and the launcher are not part of this model, and neither are the two
  view validators `DataValidatorForViewInventory` and `DataValidatorForViewDeleted`.
- `java.util.Random`: the draws are a supplied sequence. When every supplied draw clashes,
  the model ends with `Exhausted`, where Java would go on drawing. With a full block Java
  loops forever, and `FullBlockExhausts` states that no draws help.
- `LocalDate.now()` is a parameter. Dates are years 0000-9999. The signed years outside that
  range, which ISO printing gives more digits, are left out.
- Strings are ASCII. UTF-16 code units and the non-ASCII behaviour of `trim` and `\s` are
  left out.
- IOException paths: a missing store reads like an empty one, and a write always succeeds.
- GuiComponents.InventoryManager.constructor: requires the initial objects to be distinct.
  That holds for the start-up list, which the loader builds from new objects.
- GuiComponents.InventoryManager.Restore: it promises that a store matching the list before
  still matches after. It does not promise that the store matches after a restore that
  started out of step.
- Three dropdowns are free strings in the model: the type dropdown of the create dialog
  (`GUIComponentInitializer.java:166-169`), and the field-choice dropdown
  (`GUIComponentInitializer.java:299-306`) and type dropdown
  (`GUIComponentInitializer.java:389-393`) of the update dialog. The dialogs offer only the
  three types and the four field names, so the model covers more inputs than the program
  allows. An unknown type in `GuiDecisions.CreateDecision` reaches `BaseNumber` as 0, which
  the program cannot do; `GuiDecisions.CreatedItemIsStorable` takes the offered types only. A field name outside the four matches no case of the
  switch at `GUIComponentInitializer.java:307`, which has no default: nothing changes and no
  message is shown. The model reports that as `NoChange`.
- The no-argument constructor of `InventoryItem` (`InventoryItem.java:15-16`) is not
  modelled; no code in the model's scope calls it. The getters (`InventoryItem.java:28-70`)
  are reads of the object's value, `InventoryItem.Value()`, rather than methods.
- Definitions without a contract of their own have no row. Each is written as the Java code
  computes it, and the lemmas and methods named after it state its promise:
  - `DataValidator`: `IsCsvFileEmpty`, `IsInputNull`, `IsInputEmpty`, `IsQuantityInputValid`,
    `IsPositiveQuantity`, `IsValidItemName` and `IsItemNumberFound`
    (`DataValidator.java:16-138`). Their promises are stated by `MatchesDigits`,
    `MatchesNameChars`, `BlankIsNotEmpty`, `ValidQuantityParses`, `ValidQuantityMayOverflow`,
    `NormalizedValidNameIsPlain` and `GuiDecisions.CreateAccepted`.
  - The same-value checks of `DataValidatorForUpdates` (`DataValidatorForUpdates.java:81-187`):
    stated by `GuiDecisions.UpdateNumberAccepted`, `TypeChangeKeepsNumber`,
    `SameNameBeforeCharset` and `QuantityTakesAnyInt`.
  - `DataValidatorForUpdates.IsUpdatedItemNumberValid` (`DataValidatorForUpdates.java:23-71`):
    stated by `ItemNumberRangesDisjoint`, `ValidOnlyForKnownTypes`, `ValidRangeOfKnownType` and
    `RandomNumberGenerator.BaseBlockIsValidatorRange`.
  - `DataValidatorForUpdate.ValidateUpdatedItemsList` and `IsValidItemNumberForUpdate`
    (`DataValidatorForUpdate.java:12-47`): stated by `ListChecksOpposite`,
    `ItemNumberCheckIsQuantityCheck` and `ItemNumberCheckRejects`.
  - `ValidatingItemNumber.ValidateItemNumberRange` (`ValidatingItemNumber.java:12-23`): stated
    by `RangeTextBounds` and `UnknownIffNothingValid`.
  - `CsvHandler.FormatLine` (`CSVHandler.java:91-92`): stated by `LineRoundTrip`,
    `Dates.FormatIsoDateShape` and `JavaInt.IntToStringShape`.
  - `CsvHandler.Decode` (`CSVHandler.java:221-239`): stated by `StoreRoundTrip`,
    `DecodeConcat`, `DecodeSkipsLine`, `DecodeStopsAtMalformed`, `DecodeAppendParsed`,
    `DecodeEncodeDecode` and the `ReadItems` loop.
  - `PromptForUpdateConfirmation.ApplyUpdate` (`PromptForUpdateConfirmation.java:47-60`):
    stated by `ApplyUpdateChangesOneField`, `ApplyUpdateSetsField`, `ApplyUpdateFails`,
    `ApplyUpdatePrintedNumber` and the `SetSelectedField` method.
  - `RandomNumberGenerator.BaseNumber` and `FirstFreeDraw` (`RandomNumberGenerator.java:28-53`):
    stated by `FirstFreeDrawNone`, `FirstFreeDrawSome`, `GeneratedNumberInRange`,
    `FullBlockExhausts`, `BaseBlockIsValidatorRange` and the `GenerateRandomNumber` loop.
  - `GuiDecisions.CreateDecision`, `UpdateDecision`, `SoftDeleteDecision`,
    `PermanentDeleteDecision` and `RestoreDecision` (`GUIComponentInitializer.java:118-985`):
    stated by the `GuiDecisions` lemmas in the table and by the `InventoryManager` methods
    proved equal to them.
  - `JavaInt.ParseInt` (`CSVHandler.java:56-57`): stated by `ParseIntToString`,
    `ParseIntOfDigits` and `DataValidator.ValidQuantityMayOverflow`.
  - `Dates.ParseIsoDate` (`CSVHandler.java:59`): stated by `ParseFormatIsoDate` and
    `LeapDayIffLeapYear`.
  - `JavaText.Normalize` (`GUIComponentInitializer.java:134`): stated by `NormalizeShape`,
    `NormalizeIdempotent`, `NormalizeVisible` and `NormalizeEmpty`.
  - `Sorting.SortBy` (`GenerateReports.java:50-52`): stated by `SortBySorted`,
    `SortByPermutes` and `SortByStable`.
