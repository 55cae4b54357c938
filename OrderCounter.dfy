/**
 One run of `processFile` on an already decoded sheet: resolve the header,
 aggregate the data rows, and show the totals in the results table.
 */
module OrderCounter {
  import opened Optional
  import opened JavaInt
  import opened Cells
  import opened Header
  import opened Aggregation
  import opened Display

  /** Why a run ends without showing results. */
  datatype Failure =
    | MissingColumns     // "Could not find required columns in the file."
    | HeaderCellNotText  // the header scan read the text of a numeric cell

  /** The result of a run: the totals shown, or the failure reported. */
  datatype Outcome = Shown(summary: Summary) | Failed(failure: Failure)

  predicate HasNumeric(cells: seq<Cell>) {
    exists i :: 0 <= i < |cells| && cells[i].Numeric?
  }

  /** No cell of the header carries `name`. */
  predicate Untitled(header: seq<Cell>, name: string) {
    forall i :: 0 <= i < |header| ==> !Titled(header[i], name)
  }

  /** The indices the header scan leaves behind; all -1 when there is no row 0. */
  function ScannedIndices(sheet: seq<Row>): Option<Indices> {
    match HeaderRow(sheet)
    case None => Some(Indices(-1, -1, -1))
    case Some(header) =>
      if HasNumeric(header) then None
      else Some(Indices(LastIndexOf(header, VariationLabel),
                        LastIndexOf(header, ProductLabel),
                        LastIndexOf(header, QuantityLabel)))
  }

  /** What a run of `processFile` produces for `sheet`. */
  function Process(sheet: seq<Row>): Outcome {
    match ScannedIndices(sheet)
    case None => Failed(HeaderCellNotText)
    case Some(ix) =>
      match Resolve(ix)
      case None => Failed(MissingColumns)
      case Some(cols) => Shown(Summarize(DataEntries(sheet, cols)))
  }

  /**
   `processFile`: scan the header, stop with a report when a column is
   missing (leaving the table as it was), otherwise aggregate the rows and
   replace the table's contents with the totals.
   */
  method ProcessFile(table: ResultsTable, sheet: seq<Row>) returns (outcome: Outcome)
    modifies table
    ensures outcome == Process(sheet)
    ensures outcome.Failed? ==> table.rows == old(table.rows)
    ensures outcome.Shown? ==> forall t :: t in table.rows <==> Shows(outcome.summary, t)
    ensures outcome.Shown? ==> DistinctPairs(table.rows) && |table.rows| == |Pairs(outcome.summary)|
  {
    var ix := Indices(-1, -1, -1);
    var header := HeaderRow(sheet);
    if header.Some? {
      var scanned := ScanHeader(header.value);
      if scanned.None? {
        return Failed(HeaderCellNotText);
      }
      ix := scanned.value;
    }
    var cols := Resolve(ix);
    if cols.None? {
      return Failed(MissingColumns);
    }
    var summary := Aggregate(sheet, cols.value);
    DisplayResults(table, summary);
    outcome := Shown(summary);
  }

  /**
   Nothing is aggregated exactly when the header row is absent or lacks one
   of the three labels (and has no numeric cell, whose text the scan cannot
   read).
   */
  lemma MissingColumnsExactly(sheet: seq<Row>)
    ensures Process(sheet) == Failed(MissingColumns) <==>
      HeaderRow(sheet).None? ||
      (!HasNumeric(HeaderRow(sheet).value) &&
       (Untitled(HeaderRow(sheet).value, VariationLabel) ||
        Untitled(HeaderRow(sheet).value, ProductLabel) ||
        Untitled(HeaderRow(sheet).value, QuantityLabel)))
  {
    if HeaderRow(sheet).Some? {
      var header := HeaderRow(sheet).value;
      LastIndexOfSpec(header, VariationLabel);
      LastIndexOfSpec(header, ProductLabel);
      LastIndexOfSpec(header, QuantityLabel);
    }
  }

  /**
   When totals are shown, each column read is the last header cell carrying
   its label, and each (product, variation) total is the `int` sum of the
   quantities of the rows not numbered 0 that carry the pair.
   */
  lemma ShownTotals(sheet: seq<Row>)
    requires Process(sheet).Shown?
    ensures HeaderRow(sheet).Some?
    ensures var header := HeaderRow(sheet).value;
      var cols := Columns(LastIndexOf(header, ProductLabel),
                          LastIndexOf(header, VariationLabel),
                          LastIndexOf(header, QuantityLabel));
      && Titled(header[cols.product], ProductLabel)
      && Titled(header[cols.variation], VariationLabel)
      && Titled(header[cols.quantity], QuantityLabel)
      && InnerNonEmpty(Process(sheet).summary)
      && forall p, v :: Lookup(Process(sheet).summary, p, v) == Expected(DataEntries(sheet, cols), p, v)
  {
    var header := HeaderRow(sheet).value;
    var cols := Columns(LastIndexOf(header, ProductLabel),
                        LastIndexOf(header, VariationLabel),
                        LastIndexOf(header, QuantityLabel));
    LastIndexOfSpec(header, VariationLabel);
    LastIndexOfSpec(header, ProductLabel);
    LastIndexOfSpec(header, QuantityLabel);
    SummarizeInnerNonEmpty(DataEntries(sheet, cols));
    forall p, v ensures Lookup(Process(sheet).summary, p, v) == Expected(DataEntries(sheet, cols), p, v) {
      SummarizeTotals(DataEntries(sheet, cols), p, v);
    }
  }
}
