/**
 Concrete runs of the pass on small sheets: the documented examples of
 grouping, a missing column, unparseable and numeric-text quantities, and a
 sheet with a header only.
 */
module Scenarios {
  import opened Optional
  import opened JavaInt
  import opened Cells
  import opened Header
  import opened Aggregation
  import opened OrderCounter

  const StandardHeader: Row := Row(0, [Text("Product Name"), Text("Variation Name"), Text("Quantity")])

  lemma StandardColumns()
    ensures ScannedIndices([StandardHeader]) == Some(Indices(1, 0, 2))
  {
    var h := StandardHeader.cells;
    assert Titled(h[0], ProductLabel) && Titled(h[1], VariationLabel) && Titled(h[2], QuantityLabel);
    LabelsExclusive(h[0]);
    LabelsExclusive(h[1]);
    LabelsExclusive(h[2]);
    assert LastIndexOf(h, QuantityLabel) == 2;
    assert LastIndexOf(h, VariationLabel) == 1 by {
      assert h[..2][1] == h[1];
    }
    assert LastIndexOf(h, ProductLabel) == 0 by {
      assert h[..2][..1] == [h[0]];
      assert [h[0]][..0] == [];
    }
  }

  /** Rows sharing a pair are summed; each pair keeps its own total. */
  lemma GroupsAndSums()
    ensures Summarize([Entry("Mug", "Red", 2), Entry("Mug", "Red", 3), Entry("Mug", "Blue", 1)])
         == map["Mug" := map["Red" := 5, "Blue" := 1]]
  {
    var es := [Entry("Mug", "Red", 2), Entry("Mug", "Red", 3), Entry("Mug", "Blue", 1)];
    assert es[..2][..1] == [Entry("Mug", "Red", 2)];
    assert [Entry("Mug", "Red", 2)][..0] == [];
    assert Summarize([Entry("Mug", "Red", 2)]) == map["Mug" := map["Red" := 2]];
    WrapInRange(5);
    assert Wrap32(2 + 3) == 5;
    assert es[..2][1] == Entry("Mug", "Red", 3);
    assert Summarize(es[..2]) == Merge(map["Mug" := map["Red" := 2]], Entry("Mug", "Red", 3));
    assert map["Red" := 2]["Red" := 5 as Int32] == map["Red" := 5];
    assert Summarize(es[..2]) == map["Mug" := map["Red" := 5]];
  }

  /** A header without "Quantity" stops the run before any row is read. */
  lemma MissingQuantityColumn(rows: seq<Row>)
    ensures Process([Row(0, [Text("Product Name"), Text("Variation Name")])] + rows)
         == Failed(MissingColumns)
  {
    var sheet := [Row(0, [Text("Product Name"), Text("Variation Name")])] + rows;
    assert sheet[0].rowNum == 0;
    var h := sheet[0].cells;
    assert Untitled(h, QuantityLabel);
  }

  /** A header with nothing after it gives an empty summary. */
  lemma HeaderOnly()
    ensures Process([StandardHeader]) == Shown(map[])
  {
    StandardColumns();
    assert Resolve(Indices(1, 0, 2)) == Some(Columns(0, 1, 2));
    assert [StandardHeader][..0] == [];
    assert DataEntries([StandardHeader], Columns(0, 1, 2)) == [];
  }

  /** A quantity "abc" adds 0 to its pair; a quantity "7" adds 7. */
  lemma TextQuantities()
    ensures DataEntries([StandardHeader, Row(1, [Text("Mug"), Text("Red"), Text("abc")]),
                         Row(2, [Text("Mug"), Text("Blue"), Text("7")])], Columns(0, 1, 2))
         == [Entry("Mug", "Red", 0), Entry("Mug", "Blue", 7)]
  {
    QuantityRejectedText();
    var sheet := [StandardHeader, Row(1, [Text("Mug"), Text("Red"), Text("abc")]),
                  Row(2, [Text("Mug"), Text("Blue"), Text("7")])];
    assert sheet[..2][..1] == [StandardHeader];
    assert [StandardHeader][..0] == [];
    assert DataEntries(sheet[..1], Columns(0, 1, 2)) == [];
    assert EntryOf(sheet[1].cells, Columns(0, 1, 2)) == Entry("Mug", "Red", 0);
    assert EntryOf(sheet[2].cells, Columns(0, 1, 2)) == Entry("Mug", "Blue", 7);
    assert DataEntries(sheet[..2], Columns(0, 1, 2)) == [Entry("Mug", "Red", 0)];
  }
}
