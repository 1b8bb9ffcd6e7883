/**
 * `getPropertyTypeDistribution`: counts grouped by area and property type,
 * reshaped for a stacked bar chart with one bar per area (alphabetical) and
 * one stacked series per property type (alphabetical).
 */
module PropertyTypeDistribution {
  import opened Wrappers
  import opened StringOrder
  import opened PivotTable
  import Palette

  /** The route's JSON: `{labels, datasets}`. */
  datatype Distribution = Distribution(labels: seq<string>, datasets: seq<Dataset>)

  /** The chart data the route returns for the query's rows. */
  function DistributionOf(rows: seq<PivotRow>): Distribution
  {
    if rows == [] then Distribution([], [])
    else
      AreaOrderSpec(rows);
      TableKeys(rows);
      TypeOrderSpec(rows);
      var labels := Sort(AreaOrder(rows));
      assert Covers(TableOf(rows), labels) by {
        forall i | 0 <= i < |labels| ensures labels[i] in TableOf(rows) {
          assert labels[i] in Elems(labels);
        }
      }
      Distribution(labels, Datasets(labels, Sort(TypeOrder(rows)), TableOf(rows)))
  }

  /** The transform of the route's rows, as `getPropertyTypeDistribution` runs it after the query. */
  method GetPropertyTypeDistribution(rows: seq<PivotRow>) returns (result: Distribution)
    ensures result == DistributionOf(rows)
  {
    if |rows| == 0 {
      return Distribution([], []);
    }
    var table, areaKeys, typeKeys := Accumulate(rows);
    AreaOrderSpec(rows);
    TableKeys(rows);
    TypeOrderSpec(rows);
    var propertyTypes := Sort(typeKeys);
    var areas := Sort(areaKeys);
    assert Covers(table, areas) by {
      forall i | 0 <= i < |areas| ensures areas[i] in table {
        assert areas[i] in Elems(areas);
      }
    }
    result := Distribution(areas, Datasets(areas, propertyTypes, table));
  }

  /** No rows gives no labels and no datasets; any row gives at least one label and one dataset. */
  lemma EmptyExactlyWithoutRows(rows: seq<PivotRow>)
    ensures DistributionOf(rows).labels == [] <==> rows == []
    ensures DistributionOf(rows).datasets == [] <==> rows == []
  {
    if rows != [] {
      var d := DistributionOf(rows);
      AreaOrderSpec(rows);
      TypeOrderSpec(rows);
      assert AreaKey(rows[0]) in AreaSet(rows) && TypeKey(rows[0]) in TypeSet(rows);
      assert AreaKey(rows[0]) in Elems(d.labels);
      assert TypeKey(rows[0]) in Elems(Sort(TypeOrder(rows)));
    }
  }

  /** The labels are the distinct areas of the rows (a missing or empty one as 'Unknown'), strictly ascending. */
  lemma LabelsAreSortedAreas(rows: seq<PivotRow>)
    ensures Ascending(DistributionOf(rows).labels)
    ensures Elems(DistributionOf(rows).labels) == AreaSet(rows)
    ensures |DistributionOf(rows).labels| == |AreaSet(rows)|
    ensures Distinct(DistributionOf(rows).labels)
  {
    AscendingIsDistinct(DistributionOf(rows).labels);
    if rows != [] {
      AreaOrderSpec(rows);
      DistinctCard(AreaOrder(rows));
    }
  }

  /** One dataset per distinct property type, named by it, in strictly ascending order. */
  lemma OneDatasetPerType(rows: seq<PivotRow>)
    ensures var names := Names(DistributionOf(rows).datasets);
            Ascending(names) && Elems(names) == TypeSet(rows) && |names| == |TypeSet(rows)|
  {
    var names := Names(DistributionOf(rows).datasets);
    if rows != [] {
      TypeOrderSpec(rows);
      DistinctCard(TypeOrder(rows));
      assert names == Sort(TypeOrder(rows));
    }
  }

  /**
   * Because both orders are sorted, the labels and the dataset names depend
   * only on which areas and property types occur, not on the order in which
   * the query returns the rows.
   */
  lemma {:induction false} IndependentOfRowOrder(rows: seq<PivotRow>, others: seq<PivotRow>)
    requires AreaSet(rows) == AreaSet(others) && TypeSet(rows) == TypeSet(others)
    ensures DistributionOf(rows).labels == DistributionOf(others).labels
    ensures Names(DistributionOf(rows).datasets) == Names(DistributionOf(others).datasets)
  {
    LabelsAreSortedAreas(rows);
    LabelsAreSortedAreas(others);
    AscendingUnique(DistributionOf(rows).labels, DistributionOf(others).labels);
    OneDatasetPerType(rows);
    OneDatasetPerType(others);
    AscendingUnique(Names(DistributionOf(rows).datasets), Names(DistributionOf(others).datasets));
  }

  /** A label's cell is the last count recorded for it and the type, or 0. */
  lemma CellOfLabel(rows: seq<PivotRow>, i: nat, ptype: string)
    requires i < |DistributionOf(rows).labels|
    ensures DistributionOf(rows).labels[i] in TableOf(rows)
    ensures Cell(TableOf(rows), DistributionOf(rows).labels[i], ptype)
            == OrZero(LastCount(rows, DistributionOf(rows).labels[i], ptype))
  {
    var labels := DistributionOf(rows).labels;
    TableKeys(rows);
    AreaOrderSpec(rows);
    assert labels[i] in Elems(labels);
    CellOfTable(rows, labels[i], ptype);
  }

  /**
   * The matrix is dense: every dataset has one value per label, the value
   * for (labels[i], dataset k) is the last count recorded for that key or
   * 0 when no row has it, and dataset k is coloured by palette entry k mod 10.
   */
  lemma DenseCells(rows: seq<PivotRow>)
    ensures var d := DistributionOf(rows);
            forall k :: 0 <= k < |d.datasets| ==>
              && |d.datasets[k].data| == |d.labels|
              && (forall i :: 0 <= i < |d.labels| ==>
                    d.datasets[k].data[i] == OrZero(LastCount(rows, d.labels[i], d.datasets[k].name)))
              && d.datasets[k].backgroundColor == Palette.Colors[k % 10]
              && d.datasets[k].borderColor == Palette.BorderOf(d.datasets[k].backgroundColor)
              && d.datasets[k].borderWidth == 1
  {
    var d := DistributionOf(rows);
    if rows != [] {
      forall k, i | 0 <= k < |d.datasets| && 0 <= i < |d.labels|
        ensures d.datasets[k].data[i] == OrZero(LastCount(rows, d.labels[i], d.datasets[k].name))
      {
        CellOfLabel(rows, i, d.datasets[k].name);
      }
    }
  }
}
