/**
 Spreadsheet cells as the order counter sees them, Java's `equalsIgnoreCase`
 against an ASCII label, and the two coercions the aggregation applies to a
 row's cells: `getStringCellValue` and `getNumericCellValue`.
 */
module Cells {
  import opened JavaInt

  /**
   A cell of a decoded sheet. `Missing` is a cell the row does not have
   (`row.getCell` returns `null`); `Numeric` holds the integral value of a
   numeric cell. A blank cell reads as `""` everywhere, so it is `Text("")`.
   */
  datatype Cell = Missing | Text(text: string) | Numeric(value: int)

  /** A physical row of the sheet: its row number and its cells by column index. */
  datatype Row = Row(rowNum: nat, cells: seq<Cell>)

  /** `row.getCell(col)`: a column past the row's last cell is missing. */
  function CellAt(cells: seq<Cell>, col: nat): Cell {
    if col < |cells| then cells[col] else Missing
  }

  /**
   Case folding onto ASCII lower case, including the four non-ASCII
   characters whose Java upper-then-lower case mapping lands on an ASCII
   letter: dotted capital I and dotless small i (to `i`), long s (to `s`)
   and the Kelvin sign (to `k`).
   */
  function Fold(c: char): char {
    if 'A' <= c <= 'Z' then (c as int - 'A' as int + 'a' as int) as char
    else if c == '\U{0130}' || c == '\U{0131}' then 'i'
    else if c == '\U{017F}' then 's'
    else if c == '\U{212A}' then 'k'
    else c
  }

  /**
   `name.equalsIgnoreCase(s)` for an ASCII `name`: the same length and,
   position by position, the same character up to case.
   */
  predicate EqualsIgnoreCase(name: string, s: string) {
    |name| == |s| && forall i :: 0 <= i < |s| ==> name[i] == s[i] || Fold(name[i]) == Fold(s[i])
  }

  /** `getStringCellValue(row, col)`: the text of a text cell, `""` for any other or a missing cell. */
  function NameOf(c: Cell): string {
    if c.Text? then c.text else ""
  }

  /**
   `getNumericCellValue(row, col)`: 0 for a missing cell, the saturated
   `(int)` cast for a numeric cell, `Integer.parseInt` of the text otherwise,
   with a `NumberFormatException` caught as 0.
   */
  function QuantityOf(c: Cell): Int32 {
    match c
    case Missing => 0
    case Numeric(n) => Clamp32(n)
    case Text(t) => if ParseInt(t).Some? then ParseInt(t).value else 0
  }

  /**
   A column the row does not reach reads as a missing cell, which both
   coercions accept: the name is `""` and the quantity 0.
   */
  lemma ShortRowReadsEmpty(cells: seq<Cell>, col: nat)
    requires col >= |cells|
    ensures NameOf(CellAt(cells, col)) == ""
    ensures QuantityOf(CellAt(cells, col)) == 0
  {
  }

  /** Only a text cell yields a non-empty name; every other cell is grouped under `""`. */
  lemma NameCoercion(c: Cell)
    ensures NameOf(c) != "" <==> c.Text? && c.text != ""
    ensures c.Missing? || c.Numeric? ==> NameOf(c) == ""
  {
  }

  /**
   Quantity coercion: a missing cell is 0, and both a numeric cell and a
   text cell holding the decimal form of an `int` yield that `int`.
   */
  lemma {:induction false} QuantityCoercion(n: Int32)
    ensures QuantityOf(Missing) == 0
    ensures QuantityOf(Numeric(n as int)) == n
    ensures QuantityOf(Text(ShowInt(n))) == n
  {
    ParseShowRoundTrip(n);
  }

  /** A non-zero quantity comes from a numeric cell or a text cell `Integer.parseInt` accepts. */
  lemma QuantitySource(c: Cell)
    ensures QuantityOf(c) != 0 ==> c.Numeric? || (c.Text? && ParseInt(c.text).Some?)
  {
  }

  /** Text that `Integer.parseInt` rejects counts as 0: "abc", "", " 7", and digits past the `int` range. */
  lemma QuantityRejectedText()
    ensures QuantityOf(Text("abc")) == 0
    ensures QuantityOf(Text("")) == 0
    ensures QuantityOf(Text(" 7")) == 0
    ensures QuantityOf(Text("2147483648")) == 0
    ensures QuantityOf(Text("7")) == 7
  {
    ParseIntRejects();
    ParseIntBounds();
    ParseIntAccepts();
  }

  /** A numeric cell outside the `int` range saturates. */
  lemma QuantitySaturates(n: int)
    requires n > MaxInt
    ensures QuantityOf(Numeric(n)) as int == MaxInt
    ensures QuantityOf(Numeric(-n)) as int == MinInt
  {
  }

  predicate IsAsciiLetter(c: char) {
    'A' <= c <= 'Z' || 'a' <= c <= 'z'
  }

  /** The other-case form of an ASCII letter; any other character is its own swap. */
  function SwapCase(c: char): char {
    if 'A' <= c <= 'Z' then (c as int - 'A' as int + 'a' as int) as char
    else if 'a' <= c <= 'z' then (c as int - 'a' as int + 'A' as int) as char
    else c
  }

  /** Any text spelling the label with each letter in either case matches it. */
  lemma {:induction false} CaseVariantsMatch(name: string, s: string)
    requires |s| == |name|
    requires forall i :: 0 <= i < |s| ==> s[i] == name[i] || s[i] == SwapCase(name[i])
    ensures EqualsIgnoreCase(name, s)
  {
    forall i | 0 <= i < |s|
      ensures name[i] == s[i] || Fold(name[i]) == Fold(s[i])
    {
    }
  }

  /**
   A text matching an ASCII label has the label's length, and carries the
   label's non-letters (blanks, digits, punctuation) unchanged in place.
   */
  lemma {:induction false} MatchingIsExactOffLetters(name: string, s: string)
    requires forall i :: 0 <= i < |name| ==> name[i] < 128 as char
    requires EqualsIgnoreCase(name, s)
    ensures |s| == |name|
    ensures forall i :: 0 <= i < |s| && !IsAsciiLetter(name[i]) ==> s[i] == name[i]
  {
    forall i | 0 <= i < |s| && !IsAsciiLetter(name[i])
      ensures s[i] == name[i]
    {
      assert Fold(name[i]) == name[i];
    }
  }

  /** Upper, lower and mixed case all match a label; a trailing blank does not. */
  lemma LabelMatching()
    ensures EqualsIgnoreCase("Quantity", "QUANTITY")
    ensures EqualsIgnoreCase("Quantity", "quantity")
    ensures EqualsIgnoreCase("Product Name", "product NAME")
    ensures !EqualsIgnoreCase("Quantity", "Quantity ")
    ensures !EqualsIgnoreCase("Quantity", "Quantite")
  {
    assert Fold("Quantite"[7]) != Fold("Quantity"[7]);
  }
}
