# Order Counter: the aggregation pass, in Dafny

Order Counter is a desktop tool. It reads the first sheet of an order
spreadsheet and shows, for every product name and variation name, the total
quantity ordered. The only logic in it is `OrderCounter.processFile` and
its helpers, which do the following:

- **Header resolution.** Row number 0 is scanned. The scan records the column of the
  last cell whose text equals "Variation Name", "Product Name" or
  "Quantity", ignoring case. If any of the three is not found, the user
  is told that required columns are missing, and nothing else happens.
- **Group-and-sum.** Every other row is read. The product and variation
  cells are coerced to strings and the quantity cell to an `int`. The quantity
  is added to a `Map<String, Map<String, Integer>>` with
  `computeIfAbsent(...).merge(..., Integer::sum)`.
- **Cell coercion.** `getStringCellValue` gives the text of a text cell
  and `""` for anything else. `getNumericCellValue` gives 0 for a missing cell, and the `(int)` cast for
  a numeric cell. For any other cell it gives `Integer.parseInt` of the text, with a
  `NumberFormatException` turned into 0.
- **Display.** `displayResults` clears the results table. It then adds one
  (product, variation, quantity) row per entry of the nested map.

The model takes an already decoded sheet: a sequence of `Row(rowNum,
cells)`, where each cell is `Missing`, `Text(s)` or `Numeric(n)`. It
follows the source's own form:

- The two loops of `processFile` are methods with loop invariants.
  `Header.ScanHeader` works over the header cells. `Aggregation.Aggregate`
  updates the nested map in place, row by row.
- Each method is proved against a pure specification. `Header.LastIndexOf`
  specifies the scan, and `Aggregation.Summarize` over `Aggregation.DataEntries`
  specifies the loop.
- The lemmas prove what those specifications mean. Each total is the sum of
  the matching rows' quantities. Pairs that never occur are absent. Row 0
  never contributes. Row order does not matter.
- The results table is a class whose `rows` field `displayResults` rewrites.
- Java's `int` is the newtype `JavaInt.Int32`. `Integer::sum` wraps around
  (`Wrap32`). The `(int)` cast of an integral `double` saturates (`Clamp32`).

Modules, one file each:

- `Optional`: an optional value, for `null` and for operations that may fail.
- `JavaInt`: the `int` range, wrap-around, saturation, and `Integer.parseInt` with its inverse `Integer.toString`.
- `Cells`: cells and rows, `equalsIgnoreCase` against an ASCII label, and the two coercions.
- `Header`: `getRow(0)`, the header scan and the missing-column check.
- `Aggregation`: the group-and-sum loop, its specification, and the lemmas about it.
- `Display`: the results table and `displayResults`.
- `OrderCounter`: `processFile` end to end.
- `Scenarios`: small concrete sheets.

## Model

| member | source | states |
|---|---|---|
| `JavaInt.Wrap32` | OrderCounter.java:113 | the `int` that `Integer::sum` yields is congruent to the exact sum modulo 2^32 and lies in the `int` range |
| `JavaInt.WrapAdd` | OrderCounter.java:113 | adding a quantity to an already wrapped total gives the wrap of the exact running total, so repeated `merge` equals one wrap of the whole sum |
| `JavaInt.WrapInRange` | OrderCounter.java:113 | a first quantity stored by `merge` without addition is unchanged, since it already is an `int` |
| `JavaInt.Clamp32` | OrderCounter.java:144 | the `(int)` cast of an integral numeric cell value is the `int` nearest to that value: the value itself inside the range, the nearer bound outside it |
| `JavaInt.ParseInt` | OrderCounter.java:145 | `Integer.parseInt` fails on the empty string; when it succeeds, a leading `-` gives a non-positive value and anything else a non-negative one |
| `JavaInt.ParseShowRoundTrip` | OrderCounter.java:145 | `Integer.parseInt` reads back every `int` written in decimal, negative ones included |
| `JavaInt.ParseDigits` | OrderCounter.java:145 | a non-empty string of digits parses to its decimal value exactly when that value is at most `Integer.MAX_VALUE`, and fails otherwise |
| `JavaInt.ParseIntRejects` | OrderCounter.java:145-147 | `""`, a lone sign, a leading or trailing blank, letters and a decimal point are all rejected |
| `JavaInt.ParseIntAccepts` | OrderCounter.java:145 | an optional `+` or `-` and leading zeros are accepted ("7", "+7", "-7", "007") |
| `JavaInt.ParseIntBounds` | OrderCounter.java:145-147 | "2147483647" and "-2147483648" parse, "2147483648" is rejected as out of range |
| `Cells.ShortRowReadsEmpty` | OrderCounter.java:135-142 | a column past the row's last cell is a missing cell, read as the name `""` and the quantity 0 |
| `Cells.NameCoercion` | OrderCounter.java:135-138 | a name is non-empty only for a text cell with non-empty text; missing and numeric cells give `""` |
| `Cells.QuantityCoercion` | OrderCounter.java:140-145 | a missing quantity cell gives 0; a numeric cell holding an `int` and a text cell holding its decimal form both give that `int` |
| `Cells.QuantitySource` | OrderCounter.java:140-148 | a non-zero quantity comes only from a numeric cell or from text that `Integer.parseInt` accepts |
| `Cells.QuantityRejectedText` | OrderCounter.java:143-148 | the quantity texts "abc", "", " 7" and "2147483648" count as 0, and "7" counts as 7 |
| `Cells.QuantitySaturates` | OrderCounter.java:144 | numeric quantities past either end of the `int` range saturate at that end |
| `Cells.LabelMatching` | OrderCounter.java:93-95 | examples: "QUANTITY", "quantity" and "product NAME" match their labels; "Quantity " and "Quantite" do not |
| `Cells.CaseVariantsMatch` | OrderCounter.java:93-95 | any text spelling a label with each letter in either case matches it |
| `Cells.MatchingIsExactOffLetters` | OrderCounter.java:93-95 | a text matching an ASCII label has the label's length and carries its non-letter characters unchanged in place |
| `Header.LastIndexOf` | OrderCounter.java:87-96 | the recorded column is -1 or a column of the header row |
| `Header.LastIndexOfSpec` | OrderCounter.java:87-96 | the recorded column is -1 exactly when no header cell carries the label; otherwise that cell carries it and no later cell does |
| `Header.LabelsExclusive` | OrderCounter.java:93-95 | no header text matches two of the three labels, so the if-else chain never hides a match |
| `Header.HeaderRow` | OrderCounter.java:89-90 | `getRow(0)` is absent exactly when no row is numbered 0; otherwise it is the first row numbered 0 |
| `Header.ScanHeader` | OrderCounter.java:87-97 | the header loop fails exactly when a header cell is numeric; otherwise each of the three indices is the last cell carrying its label, or -1 |
| `Aggregation.MergeTouchesOnlyItsPair` | OrderCounter.java:111-113 | merging one row leaves every other (product, variation) total as it was; its own total becomes the wrapped sum of the old total (0 if absent) and the row's quantity; it adds the row's product as a key and no other |
| `Aggregation.MergeKeepsInnerNonEmpty` | OrderCounter.java:111-113 | `computeIfAbsent` followed by `merge` never leaves a product with an empty inner map |
| `Aggregation.SummarizeInnerNonEmpty` | OrderCounter.java:104-114 | every product key of the summary maps to a non-empty inner map |
| `Aggregation.SummarizeTotals` | OrderCounter.java:104-114 | the total stored for (p, v) is the wrapped sum of the quantities of all rows that carry (p, v); a pair that no row carries is absent |
| `Aggregation.HeaderRowNeverContributes` | OrderCounter.java:104-105 | inserting a row numbered 0 anywhere in the sheet, before or among the data rows, leaves the aggregated rows unchanged |
| `Aggregation.DataRowHasEntry` | OrderCounter.java:104-110 | every row not numbered 0 yields an entry, whatever its cells hold |
| `Aggregation.DataRowIsCounted` | OrderCounter.java:107-113 | every row not numbered 0 has a total under its coerced names; a row whose product cell is missing or numeric is counted under `""`, not dropped |
| `Aggregation.SumForPermutation` | OrderCounter.java:104-114 | a pair's exact total is the same for any ordering of the rows |
| `Aggregation.OccursPermutation` | OrderCounter.java:104-114 | whether a pair occurs is the same for any ordering of the rows |
| `Aggregation.LookupDetermines` | OrderCounter.java:111-113 | two summaries without empty inner maps are equal once they hold the same total for every pair |
| `Aggregation.SummarizeOrderIndependent` | OrderCounter.java:104-114 | aggregating the same rows in any order yields the same nested map |
| `Aggregation.MergeRow` | OrderCounter.java:111-113 | `computeIfAbsent` followed by `merge` on a copy of the map has exactly the effect of the specification step `Merge` for the row's entry |
| `Aggregation.DataEntriesConcat` | OrderCounter.java:104-110 | the rows read from a split sheet are those read from each part, in order |
| `Aggregation.SummarizeMeetsExpected` | OrderCounter.java:104-114 | the specified summary has no empty inner map and holds, for every pair, the wrapped sum of its quantities or nothing when no row carries it |
| `Aggregation.Aggregate` | OrderCounter.java:104-114 | the in-place loop builds exactly the specified summary: for every pair, the wrapped sum of the matching non-header rows, absent pairs absent, no empty inner map |
| `Display.ResultsTable.constructor` | OrderCounter.java:32 | the results table starts with no rows |
| `Display.ResultsTable.Clear` | OrderCounter.java:124 | `setRowCount(0)` empties the table |
| `Display.ResultsTable.AddRow` | OrderCounter.java:130 | `addRow` appends exactly one row and keeps the earlier ones |
| `Display.DisplayResults` | OrderCounter.java:122-133 | after display, a row is in the table exactly when it shows a summary entry with its total; no pair is shown twice; the number of rows is the number of (product, variation) pairs; earlier contents are gone |
| `OrderCounter.ProcessFile` | OrderCounter.java:81-120 | one run yields the specified outcome; on a failure the table keeps its earlier rows; on success the table shows exactly the summary, one row per pair |
| `OrderCounter.MissingColumnsExactly` | OrderCounter.java:87-102 | the run stops with "missing columns" exactly when there is no row 0, or when row 0 has no numeric cell and lacks one of the three labels |
| `OrderCounter.ShownTotals` | OrderCounter.java:87-114 | when totals are shown, each column read is the last header cell carrying its label, and every (product, variation) total is the wrapped sum over the non-header rows carrying that pair |
| `Scenarios.StandardColumns` | OrderCounter.java:87-97 | the header "Product Name", "Variation Name", "Quantity" resolves to columns 0, 1 and 2 |
| `Scenarios.GroupsAndSums` | OrderCounter.java:111-113 | rows (Mug, Red, 2), (Mug, Red, 3), (Mug, Blue, 1) give {Mug: {Red: 5, Blue: 1}} |
| `Scenarios.MissingQuantityColumn` | OrderCounter.java:99-102 | a header without "Quantity" stops the run, whatever rows follow |
| `Scenarios.HeaderOnly` | OrderCounter.java:104-116 | a sheet holding only the header gives an empty summary |
| `Scenarios.TextQuantities` | OrderCounter.java:140-148 | a quantity cell "abc" contributes 0 and a quantity cell "7" contributes 7 |

## Left out

- The Swing shell is not modelled: window layout, `chooseFile`, drag and drop, the message dialogs and `main`. It is GUI toolkit binding with no domain logic. The dialogs become the `Failed` outcomes.
- File opening, workbook decoding, `getSheetAt(0)` and the `IOException` report are not modelled, because they are library I/O. The model starts from a decoded sheet.
- Cell types other than missing, text and numeric are not modelled: boolean, formula and error cells. What the spreadsheet library does with them is not visible here. A blank cell reads as `""` on every path, so it is `Text("")`.
- Cells.Numeric: holds the integral value of a numeric cell. Truncation of fractional `double` values and NaN (which the cast maps to 0) are not modelled, since they are floating-point behaviour.
- JavaInt.ParseInt: accepts only the ASCII digits 0-9. Java's `Character.digit` also accepts other Unicode decimal digits, such as fullwidth or Arabic-Indic digits.
- Cells.EqualsIgnoreCase: exact only when the label is ASCII, which all three labels are. It folds ASCII letters, plus the four non-ASCII characters that Java's case mapping folds onto an ASCII letter.
- Header.HeaderRow: picks the first row numbered 0. The spreadsheet library keeps row numbers unique, so there is only one.
- Display.DisplayResults: the order of the table rows is not stated. `HashMap` iteration order is unspecified, so the contract speaks of membership and count.
- Reading the text of a numeric header cell throws `IllegalStateException`, which `processFile` does not catch. The model ends the run with `Failed(HeaderCellNotText)` and leaves the table unchanged. The event-thread failure that follows is not modelled.
