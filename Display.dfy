/**
 The results table and `displayResults`, which clears it and adds one
 (product, variation, quantity) row per pair of the summary.
 */
module Display {
  import opened JavaInt
  import opened Aggregation

  /** A row of the results table: product name, variation name, quantity. */
  type TableRow = (string, string, Int32)

  /** The table model behind the results view: its rows, in the order they were added. */
  class ResultsTable {
    var rows: seq<TableRow>

    constructor ()
      ensures rows == []
    {
      rows := [];
    }

    /** `setRowCount(0)`. */
    method Clear()
      modifies this
      ensures rows == []
    {
      rows := [];
    }

    /** `addRow(new Object[]{product, variation, quantity})`. */
    method AddRow(product: string, variation: string, quantity: Int32)
      modifies this
      ensures rows == old(rows) + [(product, variation, quantity)]
    {
      rows := rows + [(product, variation, quantity)];
    }
  }

  /** The (product, variation) pairs a summary holds. */
  ghost function Pairs(s: Summary): set<(string, string)> {
    set p, v | p in s && v in s[p] :: (p, v)
  }

  /** A table row shows an entry of the summary, with its total. */
  predicate Shows(s: Summary, t: TableRow) {
    t.0 in s && t.1 in s[t.0] && t.2 == s[t.0][t.1]
  }

  /** No two rows show the same pair. */
  predicate DistinctPairs(rows: seq<TableRow>) {
    forall i, j :: 0 <= i < j < |rows| ==> (rows[i].0, rows[i].1) != (rows[j].0, rows[j].1)
  }

  /**
   `displayResults`: clear the table, then for each product and each of its
   variations, in the maps' iteration order (left unspecified here), add
   one row. Afterwards the table holds exactly the summary's entries, one
   row per pair.
   */
  method DisplayResults(table: ResultsTable, summary: Summary)
    modifies table
    ensures forall t :: t in table.rows <==> Shows(summary, t)
    ensures DistinctPairs(table.rows)
    ensures |table.rows| == |Pairs(summary)|
  {
    table.Clear();
    ghost var emitted: set<(string, string)> := {};
    var products := summary.Keys;
    while products != {}
      invariant products <= summary.Keys
      invariant forall t :: t in table.rows <==> Shows(summary, t) && t.0 !in products
      invariant forall pv :: pv in emitted <==> pv.0 in summary && pv.0 !in products && pv.1 in summary[pv.0]
      invariant DistinctPairs(table.rows)
      invariant |table.rows| == |emitted|
      decreases products
    {
      var p :| p in products;
      var variations := summary[p].Keys;
      while variations != {}
        invariant variations <= summary[p].Keys
        invariant forall t :: t in table.rows <==>
          Shows(summary, t) && (t.0 !in products || (t.0 == p && t.1 !in variations))
        invariant forall pv :: pv in emitted <==>
          pv.0 in summary && pv.1 in summary[pv.0] && (pv.0 !in products || (pv.0 == p && pv.1 !in variations))
        invariant DistinctPairs(table.rows)
        invariant |table.rows| == |emitted|
        decreases variations
      {
        var v :| v in variations;
        assert (p, v) !in emitted;
        table.AddRow(p, v, summary[p][v]);
        emitted := emitted + {(p, v)};
        variations := variations - {v};
      }
      products := products - {p};
    }
    assert emitted == Pairs(summary);
  }
}
