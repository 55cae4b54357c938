/**
 Group-and-sum: the loop of `processFile` that walks the sheet's rows and
 accumulates each row's quantity into a nested map keyed by product name,
 then by variation name.
 */
module Aggregation {
  import opened Optional
  import opened JavaInt
  import opened Cells
  import opened Header

  /** One data row after cell coercion. */
  datatype Entry = Entry(product: string, variation: string, quantity: Int32)

  /** `Map<String, Map<String, Integer>>`: product name to variation name to total. */
  type Summary = map<string, map<string, Int32>>

  /** The total stored for a (product, variation) pair, if any. */
  function Lookup(s: Summary, p: string, v: string): Option<Int32> {
    if p in s && v in s[p] then Some(s[p][v]) else None
  }

  /** Every product key maps to a non-empty inner map. */
  predicate InnerNonEmpty(s: Summary) {
    forall p :: p in s ==> s[p] != map[]
  }

  /** The coerced (product, variation, quantity) of a data row. */
  function EntryOf(cells: seq<Cell>, cols: Columns): Entry {
    Entry(NameOf(CellAt(cells, cols.product)),
          NameOf(CellAt(cells, cols.variation)),
          QuantityOf(CellAt(cells, cols.quantity)))
  }

  /** The entries of the rows the loop aggregates: every row except the one numbered 0, in sheet order. */
  function DataEntries(sheet: seq<Row>, cols: Columns): seq<Entry> {
    if sheet == [] then []
    else
      var last := sheet[|sheet| - 1];
      var init := DataEntries(sheet[..|sheet| - 1], cols);
      if last.rowNum == 0 then init else init + [EntryOf(last.cells, cols)]
  }

  /**
   `computeIfAbsent(product, k -> new HashMap<>()).merge(variation, quantity, Integer::sum)`:
   create the product's inner map if absent, then store the quantity, or
   add it with `int` wrap-around to the total already there.
   */
  function Merge(s: Summary, e: Entry): Summary {
    var inner := if e.product in s then s[e.product] else map[];
    var total := if e.variation in inner then Wrap32(inner[e.variation] as int + e.quantity as int) else e.quantity;
    s[e.product := inner[e.variation := total]]
  }

  /** The summary after merging the entries one by one, from an empty map. */
  function Summarize(es: seq<Entry>): Summary {
    if es == [] then map[] else Merge(Summarize(es[..|es| - 1]), es[|es| - 1])
  }

  /** Does some entry carry the pair (p, v)? */
  predicate Occurs(es: seq<Entry>, p: string, v: string) {
    exists i :: 0 <= i < |es| && es[i].product == p && es[i].variation == v
  }

  /** The exact (unbounded) sum of the quantities of the entries carrying (p, v). */
  function SumFor(es: seq<Entry>, p: string, v: string): int {
    if es == [] then 0
    else
      var last := es[|es| - 1];
      SumFor(es[..|es| - 1], p, v) + (if last.product == p && last.variation == v then last.quantity as int else 0)
  }

  /**
   The total the summary should hold for (p, v): the `int` sum of the
   quantities of the entries carrying the pair, or nothing if none does.
   */
  function Expected(es: seq<Entry>, p: string, v: string): Option<Int32> {
    if Occurs(es, p, v) then Some(Wrap32(SumFor(es, p, v))) else None
  }

  /**
   Merging one entry changes only the total of its own pair, which becomes
   the `int` sum of the old total (0 when absent) and the entry's quantity.
   */
  lemma MergeTouchesOnlyItsPair(s: Summary, e: Entry, p: string, v: string)
    ensures (p, v) != (e.product, e.variation) ==> Lookup(Merge(s, e), p, v) == Lookup(s, p, v)
    ensures Lookup(Merge(s, e), e.product, e.variation)
         == Some(Wrap32((match Lookup(s, e.product, e.variation) case Some(t) => t as int case None => 0)
                        + e.quantity as int))
    ensures Merge(s, e).Keys == s.Keys + {e.product}
  {
    if Lookup(s, e.product, e.variation).None? {
      WrapInRange(e.quantity as int);
    }
  }

  /** Merging keeps every inner map non-empty, since the product just created receives an entry at once. */
  lemma MergeKeepsInnerNonEmpty(s: Summary, e: Entry)
    requires InnerNonEmpty(s)
    ensures InnerNonEmpty(Merge(s, e))
  {
    assert e.variation in Merge(s, e)[e.product];
  }

  /** Every product key of a summary has at least one variation. */
  lemma {:induction false} SummarizeInnerNonEmpty(es: seq<Entry>)
    ensures InnerNonEmpty(Summarize(es))
  {
    if es != [] {
      SummarizeInnerNonEmpty(es[..|es| - 1]);
      MergeKeepsInnerNonEmpty(Summarize(es[..|es| - 1]), es[|es| - 1]);
    }
  }

  /** An entry carries (p, v) iff an earlier one does or the last one does. */
  lemma OccursSnoc(es: seq<Entry>, p: string, v: string)
    requires es != []
    ensures Occurs(es, p, v) <==>
      Occurs(es[..|es| - 1], p, v) || (es[|es| - 1].product == p && es[|es| - 1].variation == v)
  {
    var init := es[..|es| - 1];
    if Occurs(es, p, v) && !(es[|es| - 1].product == p && es[|es| - 1].variation == v) {
      var i :| 0 <= i < |es| && es[i].product == p && es[i].variation == v;
      assert i < |init| && init[i] == es[i];
    }
    if Occurs(init, p, v) {
      var i :| 0 <= i < |init| && init[i].product == p && init[i].variation == v;
      assert es[i] == init[i];
    }
  }

  lemma {:induction false} NoOccurrenceSumsToZero(es: seq<Entry>, p: string, v: string)
    requires !Occurs(es, p, v)
    ensures SumFor(es, p, v) == 0
  {
    if es != [] {
      OccursSnoc(es, p, v);
      NoOccurrenceSumsToZero(es[..|es| - 1], p, v);
    }
  }

  /**
   The summary's total for (p, v) is the `int` sum of the quantities of all
   entries carrying (p, v); a pair no entry carries is absent.
   */
  lemma {:induction false} SummarizeTotals(es: seq<Entry>, p: string, v: string)
    ensures Lookup(Summarize(es), p, v) == Expected(es, p, v)
  {
    if es != [] {
      var init, last := es[..|es| - 1], es[|es| - 1];
      SummarizeTotals(init, p, v);
      MergeTouchesOnlyItsPair(Summarize(init), last, p, v);
      OccursSnoc(es, p, v);
      if last.product == p && last.variation == v {
        if Occurs(init, p, v) {
          WrapAdd(SumFor(init, p, v), last.quantity as int);
        } else {
          NoOccurrenceSumsToZero(init, p, v);
        }
      }
    }
  }

  lemma {:induction false} DataEntriesConcat(a: seq<Row>, b: seq<Row>, cols: Columns)
    ensures DataEntries(a + b, cols) == DataEntries(a, cols) + DataEntries(b, cols)
    decreases |b|
  {
    if b == [] {
      assert a + b == a;
    } else {
      var b0 := b[..|b| - 1];
      assert (a + b)[..|a + b| - 1] == a + b0;
      DataEntriesConcat(a, b0, cols);
    }
  }

  /** A row numbered 0 contributes nothing, wherever it stands in the sheet. */
  lemma HeaderRowNeverContributes(a: seq<Row>, cells: seq<Cell>, b: seq<Row>, cols: Columns)
    ensures DataEntries(a + [Row(0, cells)] + b, cols) == DataEntries(a + b, cols)
  {
    DataEntriesConcat(a + [Row(0, cells)], b, cols);
    DataEntriesConcat(a, [Row(0, cells)], cols);
    DataEntriesConcat(a, b, cols);
    assert [Row(0, cells)][..0] == [];
  }

  /** Every row not numbered 0 yields an entry, whatever its cells hold. */
  lemma {:induction false} DataRowHasEntry(sheet: seq<Row>, k: nat, cols: Columns)
    requires k < |sheet| && sheet[k].rowNum != 0
    ensures EntryOf(sheet[k].cells, cols) in DataEntries(sheet, cols)
  {
    var init := sheet[..|sheet| - 1];
    if k < |sheet| - 1 {
      assert init[k] == sheet[k];
      DataRowHasEntry(init, k, cols);
    }
  }

  /**
   Every row not numbered 0 is grouped under its coerced names, so a row whose
   product or variation cell is missing or numeric is counted under `""`
   rather than dropped.
   */
  lemma DataRowIsCounted(sheet: seq<Row>, k: nat, cols: Columns)
    requires k < |sheet| && sheet[k].rowNum != 0
    ensures Lookup(Summarize(DataEntries(sheet, cols)), EntryOf(sheet[k].cells, cols).product,
                   EntryOf(sheet[k].cells, cols).variation).Some?
    ensures !CellAt(sheet[k].cells, cols.product).Text? ==>
              "" in Summarize(DataEntries(sheet, cols))
  {
    var es := DataEntries(sheet, cols);
    var e := EntryOf(sheet[k].cells, cols);
    DataRowHasEntry(sheet, k, cols);
    var i :| 0 <= i < |es| && es[i] == e;
    SummarizeTotals(es, e.product, e.variation);
  }

  lemma {:induction false} SumForConcat(a: seq<Entry>, b: seq<Entry>, p: string, v: string)
    ensures SumFor(a + b, p, v) == SumFor(a, p, v) + SumFor(b, p, v)
    decreases |b|
  {
    if b == [] {
      assert a + b == a;
    } else {
      var b0 := b[..|b| - 1];
      assert (a + b)[..|a + b| - 1] == a + b0;
      SumForConcat(a, b0, p, v);
    }
  }

  /** Removing the entry at index k takes its contribution out of every total. */
  lemma SumForRemove(es: seq<Entry>, k: nat, p: string, v: string)
    requires k < |es|
    ensures multiset(es) == multiset(es[..k] + es[k + 1..]) + multiset{es[k]}
    ensures SumFor(es, p, v) == SumFor(es[..k] + es[k + 1..], p, v) + SumFor([es[k]], p, v)
  {
    var left, x, right := es[..k], es[k], es[k + 1..];
    assert es == left + [x] + right;
    SumForConcat(left + [x], right, p, v);
    SumForConcat(left, [x], p, v);
    SumForConcat(left, right, p, v);
  }

  /** The total of a pair depends only on the multiset of entries, not on their order. */
  lemma {:induction false} SumForPermutation(es1: seq<Entry>, es2: seq<Entry>, p: string, v: string)
    requires multiset(es1) == multiset(es2)
    ensures SumFor(es1, p, v) == SumFor(es2, p, v)
    decreases |es1|
  {
    if es1 == [] {
      assert |es2| == |multiset(es2)| == 0;
    } else {
      var init, x := es1[..|es1| - 1], es1[|es1| - 1];
      assert es1 == init + [x];
      assert x in multiset(es2);
      var k :| 0 <= k < |es2| && es2[k] == x;
      var rest := es2[..k] + es2[k + 1..];
      SumForRemove(es2, k, p, v);
      assert multiset(init) + multiset{x} == multiset(rest) + multiset{x};
      assert multiset(init) == multiset(init) + multiset{x} - multiset{x};
      assert multiset(rest) == multiset(rest) + multiset{x} - multiset{x};
      SumForPermutation(init, rest, p, v);
      SumForConcat(init, [x], p, v);
    }
  }

  lemma OccursPermutation(es1: seq<Entry>, es2: seq<Entry>, p: string, v: string)
    requires multiset(es1) == multiset(es2)
    ensures Occurs(es1, p, v) <==> Occurs(es2, p, v)
  {
    if Occurs(es1, p, v) {
      var i :| 0 <= i < |es1| && es1[i].product == p && es1[i].variation == v;
      assert es1[i] in multiset(es2);
    }
    if Occurs(es2, p, v) {
      var i :| 0 <= i < |es2| && es2[i].product == p && es2[i].variation == v;
      assert es2[i] in multiset(es1);
    }
  }

  /** Two summaries whose inner maps are non-empty are equal once they agree on every pair. */
  lemma LookupDetermines(s1: Summary, s2: Summary)
    requires InnerNonEmpty(s1) && InnerNonEmpty(s2)
    requires forall p, v :: Lookup(s1, p, v) == Lookup(s2, p, v)
    ensures s1 == s2
  {
    forall p | p in s1 ensures p in s2 {
      var v :| v in s1[p];
      assert Lookup(s1, p, v).Some?;
    }
    forall p | p in s2 ensures p in s1 {
      var v :| v in s2[p];
      assert Lookup(s2, p, v).Some?;
    }
    forall p | p in s1 ensures s1[p] == s2[p] {
      forall v | v in s1[p] ensures v in s2[p] && s1[p][v] == s2[p][v] {
        assert Lookup(s1, p, v).Some?;
      }
      forall v | v in s2[p] ensures v in s1[p] {
        assert Lookup(s2, p, v).Some?;
      }
    }
  }

  /**
   The summary depends only on which coerced rows there are, not on the
   order the sheet (or a hash map) presents them in: aggregating the same
   rows in any order gives the same map.
   */
  lemma SummarizeOrderIndependent(es1: seq<Entry>, es2: seq<Entry>)
    requires multiset(es1) == multiset(es2)
    ensures Summarize(es1) == Summarize(es2)
  {
    SummarizeInnerNonEmpty(es1);
    SummarizeInnerNonEmpty(es2);
    forall p, v ensures Lookup(Summarize(es1), p, v) == Lookup(Summarize(es2), p, v) {
      SummarizeTotals(es1, p, v);
      SummarizeTotals(es2, p, v);
      OccursPermutation(es1, es2, p, v);
      SumForPermutation(es1, es2, p, v);
    }
    LookupDetermines(Summarize(es1), Summarize(es2));
  }

  lemma DataEntriesStep(sheet: seq<Row>, i: nat, cols: Columns)
    requires i < |sheet|
    ensures DataEntries(sheet[..i + 1], cols) ==
      if sheet[i].rowNum == 0 then DataEntries(sheet[..i], cols)
      else DataEntries(sheet[..i], cols) + [EntryOf(sheet[i].cells, cols)]
  {
    assert sheet[..i + 1][..i] == sheet[..i];
  }

  /** One turn of the aggregation loop on a data row extends the summary of the rows before it by `Merge`. */
  lemma AggregateStep(sheet: seq<Row>, i: nat, cols: Columns, before: Summary, after: Summary)
    requires i < |sheet| && sheet[i].rowNum != 0
    requires before == Summarize(DataEntries(sheet[..i], cols))
    requires after == Merge(before, EntryOf(sheet[i].cells, cols))
    ensures after == Summarize(DataEntries(sheet[..i + 1], cols))
  {
    DataEntriesStep(sheet, i, cols);
    var es := DataEntries(sheet[..i], cols);
    assert (es + [EntryOf(sheet[i].cells, cols)])[..|es|] == es;
  }

  /** The specification's totals, for every pair at once. */
  lemma SummarizeMeetsExpected(es: seq<Entry>)
    ensures InnerNonEmpty(Summarize(es))
    ensures forall p, v :: Lookup(Summarize(es), p, v) == Expected(es, p, v)
  {
    SummarizeInnerNonEmpty(es);
    forall p, v ensures Lookup(Summarize(es), p, v) == Expected(es, p, v) {
      SummarizeTotals(es, p, v);
    }
  }

  /**
   `productQuantities.computeIfAbsent(product, ...).merge(variation, quantity, Integer::sum)`:
   fetch the product's inner map, creating an empty one when the product is
   new, then add the quantity to the variation's total.
   */
  method MergeRow(summary: Summary, product: string, variation: string, quantity: Int32)
    returns (updated: Summary)
    ensures updated == Merge(summary, Entry(product, variation, quantity))
  {
    updated := summary;
    if product !in updated {
      updated := updated[product := map[]];
    }
    var inner := updated[product];
    var total := if variation in inner then Wrap32(inner[variation] as int + quantity as int) else quantity;
    updated := updated[product := inner[variation := total]];
  }

  /**
   The loop of `processFile`: skip the row numbered 0, coerce the three cells
   of every other row, and merge the row into the map in place.
   */
  method Aggregate(sheet: seq<Row>, cols: Columns) returns (summary: Summary)
    ensures summary == Summarize(DataEntries(sheet, cols))
    ensures InnerNonEmpty(summary)
    ensures forall p, v :: Lookup(summary, p, v) == Expected(DataEntries(sheet, cols), p, v)
  {
    summary := map[];
    for i := 0 to |sheet|
      invariant summary == Summarize(DataEntries(sheet[..i], cols))
    {
      var row := sheet[i];
      if row.rowNum == 0 {
        DataEntriesStep(sheet, i, cols);
        continue;
      }
      var product := NameOf(CellAt(row.cells, cols.product));
      var variation := NameOf(CellAt(row.cells, cols.variation));
      var quantity := QuantityOf(CellAt(row.cells, cols.quantity));
      ghost var before := summary;
      summary := MergeRow(summary, product, variation, quantity);
      AggregateStep(sheet, i, cols, before, summary);
    }
    assert sheet[..|sheet|] == sheet;
    SummarizeMeetsExpected(DataEntries(sheet, cols));
  }
}
