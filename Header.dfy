/**
 Header resolution: the scan of row 0 that finds the columns titled
 "Variation Name", "Product Name" and "Quantity".
 */
module Header {
  import opened Optional
  import opened JavaInt
  import opened Cells

  const VariationLabel: string := "Variation Name"
  const ProductLabel: string := "Product Name"
  const QuantityLabel: string := "Quantity"

  /** The column indices found by the scan; -1 where no header cell carries the label. */
  datatype Indices = Indices(variation: int, product: int, quantity: int)

  /** The three columns the aggregation reads, all resolved. */
  datatype Columns = Columns(product: nat, variation: nat, quantity: nat)

  /** A header cell carries `name` when it is text equal to `name` ignoring case. */
  predicate Titled(c: Cell, name: string) {
    c.Text? && EqualsIgnoreCase(name, c.text)
  }

  /** The index of the last cell titled `name`, or -1 when there is none. */
  function LastIndexOf(header: seq<Cell>, name: string): (r: int)
    ensures -1 <= r < |header|
  {
    if |header| == 0 then -1
    else if Titled(header[|header| - 1], name) then |header| - 1
    else LastIndexOf(header[..|header| - 1], name)
  }

  /**
   The recorded index is -1 exactly when no header cell carries `name`;
   otherwise that cell carries it and no later cell does.
   */
  lemma {:induction false} LastIndexOfSpec(header: seq<Cell>, name: string)
    ensures var r := LastIndexOf(header, name);
      && (r == -1 <==> forall i :: 0 <= i < |header| ==> !Titled(header[i], name))
      && (r >= 0 ==> Titled(header[r], name))
      && (r >= 0 ==> forall i :: r < i < |header| ==> !Titled(header[i], name))
  {
    if |header| > 0 && !Titled(header[|header| - 1], name) {
      var init := header[..|header| - 1];
      LastIndexOfSpec(init, name);
      assert forall i :: 0 <= i < |init| ==> init[i] == header[i];
    }
  }

  lemma LastIndexOfStep(header: seq<Cell>, i: nat, name: string)
    requires i < |header|
    ensures LastIndexOf(header[..i + 1], name) ==
      if Titled(header[i], name) then i else LastIndexOf(header[..i], name)
  {
    assert header[..i + 1][..i] == header[..i];
  }

  /** No header text carries two of the three labels, so the scan's if-else chain never shadows one. */
  lemma LabelsExclusive(c: Cell)
    ensures !(Titled(c, VariationLabel) && Titled(c, ProductLabel))
    ensures !(Titled(c, VariationLabel) && Titled(c, QuantityLabel))
    ensures !(Titled(c, ProductLabel) && Titled(c, QuantityLabel))
  {
  }

  /** `sheet.getRow(0)`: the cells of the (first) row numbered 0, if the sheet has one. */
  function HeaderRow(sheet: seq<Row>): (r: Option<seq<Cell>>)
    ensures r.None? <==> forall k :: 0 <= k < |sheet| ==> sheet[k].rowNum != 0
    ensures r.Some? ==> exists k :: 0 <= k < |sheet| && sheet[k] == Row(0, r.value)
                                    && forall j :: 0 <= j < k ==> sheet[j].rowNum != 0
  {
    if |sheet| == 0 then None
    else if sheet[0].rowNum == 0 then Some(sheet[0].cells)
    else
      var r := HeaderRow(sheet[1..]);
      if r.Some? then
        var k :| 0 <= k < |sheet| - 1 && sheet[1..][k] == Row(0, r.value)
                 && forall j :: 0 <= j < k ==> sheet[1..][j].rowNum != 0;
        assert sheet[k + 1] == Row(0, r.value);
        assert forall j :: 0 <= j < k + 1 ==> sheet[j].rowNum != 0 by {
          forall j | 0 <= j < k + 1 ensures sheet[j].rowNum != 0 {
            if j > 0 { assert sheet[j] == sheet[1..][j - 1]; }
          }
        }
        r
      else r
  }

  /**
   The header loop: visit the row's cells in column order, skipping columns
   the row does not have, and record the index of each cell titled with one
   of the labels. Reading the text of a numeric header cell throws, which
   is `None`.
   */
  method ScanHeader(header: seq<Cell>) returns (r: Option<Indices>)
    ensures r.None? <==> exists i :: 0 <= i < |header| && header[i].Numeric?
    ensures r.Some? ==> r.value == Indices(LastIndexOf(header, VariationLabel),
                                           LastIndexOf(header, ProductLabel),
                                           LastIndexOf(header, QuantityLabel))
  {
    var variationCol, productCol, quantityCol := -1, -1, -1;
    var i := 0;
    while i < |header|
      invariant 0 <= i <= |header|
      invariant forall k :: 0 <= k < i ==> !header[k].Numeric?
      invariant variationCol == LastIndexOf(header[..i], VariationLabel)
      invariant productCol == LastIndexOf(header[..i], ProductLabel)
      invariant quantityCol == LastIndexOf(header[..i], QuantityLabel)
    {
      LastIndexOfStep(header, i, VariationLabel);
      LastIndexOfStep(header, i, ProductLabel);
      LastIndexOfStep(header, i, QuantityLabel);
      match header[i] {
        case Missing =>
        case Numeric(_) =>
          return None;
        case Text(text) =>
          LabelsExclusive(header[i]);
          if EqualsIgnoreCase(VariationLabel, text) {
            variationCol := i;
          } else if EqualsIgnoreCase(ProductLabel, text) {
            productCol := i;
          } else if EqualsIgnoreCase(QuantityLabel, text) {
            quantityCol := i;
          }
      }
      i := i + 1;
    }
    assert header[..i] == header;
    r := Some(Indices(variationCol, productCol, quantityCol));
  }

  /** The check after the scan: every index must have been found. */
  function Resolve(ix: Indices): Option<Columns>
    requires ix.variation >= -1 && ix.product >= -1 && ix.quantity >= -1
  {
    if ix.product == -1 || ix.variation == -1 || ix.quantity == -1 then None
    else Some(Columns(ix.product, ix.variation, ix.quantity))
  }
}
