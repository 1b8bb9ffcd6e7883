/**
 * `getTopAreasPropertyTypeDistribution`: the stacked-bar reshape for the
 * ten areas with the most transactions. The bars follow the ranking query's
 * order verbatim and every ranked area gets a bar, rows or not.
 */
module TopAreasPropertyTypeDistribution {
  import opened Wrappers
  import opened StringOrder
  import opened PivotTable
  import Palette

  /** The route's JSON: `{labels, datasets, topAreas}`. */
  datatype TopAreasDistribution = TopAreasDistribution(labels: seq<string>, datasets: seq<Dataset>, topAreas: seq<string>)

  /** The map after `topAreas.forEach(area => { if (!areaDataMap[area]) areaDataMap[area] = {}; })`. */
  function WithAreas(table: Table, areas: seq<string>): Table
    decreases |areas|
  {
    if areas == [] then table
    else
      var before := WithAreas(table, areas[..|areas| - 1]);
      var area := areas[|areas| - 1];
      if area in before then before else before[area := map[]]
  }

  /** Ensuring the ranked areas adds an empty entry for each one missing and changes nothing else. */
  lemma {:induction false} WithAreasSpec(table: Table, areas: seq<string>)
    ensures WithAreas(table, areas).Keys == table.Keys + Elems(areas)
    ensures forall a :: a in table ==> WithAreas(table, areas)[a] == table[a]
    ensures forall a :: a in WithAreas(table, areas) && a !in table ==> WithAreas(table, areas)[a] == map[]
    decreases |areas|
  {
    if areas != [] {
      var prefix := areas[..|areas| - 1];
      WithAreasSpec(table, prefix);
      assert areas == prefix + [areas[|areas| - 1]];
      assert Elems(areas) == Elems(prefix) + {areas[|areas| - 1]};
    }
  }

  /** The `topAreas.forEach` loop, filling the map in place. */
  method EnsureAreas(table: Table, areas: seq<string>) returns (result: Table)
    ensures result == WithAreas(table, areas)
    ensures Covers(result, areas)
  {
    result := table;
    var i := 0;
    while i < |areas|
      invariant 0 <= i <= |areas|
      invariant result == WithAreas(table, areas[..i])
    {
      if areas[i] !in result {
        result := result[areas[i] := map[]];
      }
      assert areas[..i + 1][..i] == areas[..i];
      i := i + 1;
    }
    assert areas[..|areas|] == areas;
    WithAreasSpec(table, areas);
    forall i | 0 <= i < |areas| ensures areas[i] in result {
      assert areas[i] in Elems(areas);
    }
  }

  /** The chart data the route returns for the ranking `topAreas` and the detail rows. */
  function TopAreasDistributionOf(topAreas: seq<string>, rows: seq<PivotRow>): TopAreasDistribution
  {
    if topAreas == [] then TopAreasDistribution([], [], [])
    else if rows == [] then TopAreasDistribution(topAreas, [], topAreas)
    else
      var table := WithAreas(TableOf(rows), topAreas);
      TypeOrderSpec(rows);
      WithAreasSpec(TableOf(rows), topAreas);
      assert Covers(table, topAreas) by {
        forall i | 0 <= i < |topAreas| ensures topAreas[i] in table {
          assert topAreas[i] in Elems(topAreas);
        }
      }
      TopAreasDistribution(topAreas, Datasets(topAreas, Sort(TypeOrder(rows)), table), topAreas)
  }

  /**
   * The transform of `getTopAreasPropertyTypeDistribution` after its two
   * queries: `topAreas` from the ranking query, `rows` from the detail query.
   */
  method GetTopAreasPropertyTypeDistribution(topAreas: seq<string>, rows: seq<PivotRow>) returns (result: TopAreasDistribution)
    ensures result == TopAreasDistributionOf(topAreas, rows)
  {
    if |topAreas| == 0 {
      return TopAreasDistribution([], [], []);
    }
    if |rows| == 0 {
      return TopAreasDistribution(topAreas, [], topAreas);
    }
    var table, _, typeKeys := Accumulate(rows);
    table := EnsureAreas(table, topAreas);
    TypeOrderSpec(rows);
    var propertyTypes := Sort(typeKeys);
    var areas := topAreas;
    result := TopAreasDistribution(areas, Datasets(areas, propertyTypes, table), topAreas);
  }

  /**
   * The bars are the ranked areas, in ranking order, and the `topAreas`
   * field repeats them; without detail rows there are no datasets.
   */
  lemma LabelsFollowRanking(topAreas: seq<string>, rows: seq<PivotRow>)
    ensures var d := TopAreasDistributionOf(topAreas, rows);
            d.labels == topAreas && d.topAreas == topAreas
    ensures rows == [] ==> TopAreasDistributionOf(topAreas, rows).datasets == []
    ensures topAreas == [] ==> TopAreasDistributionOf(topAreas, rows).datasets == []
  {
  }

  /** With ranked areas and detail rows: one dataset per distinct property type of the rows, strictly ascending. */
  lemma OneDatasetPerType(topAreas: seq<string>, rows: seq<PivotRow>)
    requires topAreas != [] && rows != []
    ensures var names := Names(TopAreasDistributionOf(topAreas, rows).datasets);
            Ascending(names) && Elems(names) == TypeSet(rows) && |names| == |TypeSet(rows)|
  {
    var names := Names(TopAreasDistributionOf(topAreas, rows).datasets);
    TypeOrderSpec(rows);
    DistinctCard(TypeOrder(rows));
    assert names == Sort(TypeOrder(rows));
  }

  /**
   * A ranked area's cell is its last recorded count for the type, or 0; a
   * ranked area that no row names (B in a ranking [A, B, C] whose rows only
   * cover A and C) still has an entry, and every cell of it is 0.
   */
  lemma CellOfRankedArea(topAreas: seq<string>, rows: seq<PivotRow>, i: nat, ptype: string)
    requires i < |topAreas|
    ensures topAreas[i] in WithAreas(TableOf(rows), topAreas)
    ensures Cell(WithAreas(TableOf(rows), topAreas), topAreas[i], ptype) == OrZero(LastCount(rows, topAreas[i], ptype))
    ensures (forall r :: r in rows ==> AreaKey(r) != topAreas[i]) ==> Cell(WithAreas(TableOf(rows), topAreas), topAreas[i], ptype) == 0
  {
    var built := TableOf(rows);
    var area := topAreas[i];
    WithAreasSpec(built, topAreas);
    TableLookup(rows, area, ptype);
    assert area in Elems(topAreas);
    if forall r :: r in rows ==> AreaKey(r) != area {
      LastCountOfAbsentArea(rows, area, ptype);
    }
  }

  /**
   * Dense fill over the ranking: each dataset has one value per ranked area,
   * the value for topAreas[i] is the last count recorded for it and the
   * dataset's property type, or 0 when no row has that key (in particular
   * for a ranked area without any rows); dataset k takes palette entry k mod 10.
   */
  lemma DenseCells(topAreas: seq<string>, rows: seq<PivotRow>)
    ensures var d := TopAreasDistributionOf(topAreas, rows);
            forall k :: 0 <= k < |d.datasets| ==>
              && |d.datasets[k].data| == |topAreas|
              && (forall i :: 0 <= i < |topAreas| ==>
                    d.datasets[k].data[i] == OrZero(LastCount(rows, topAreas[i], d.datasets[k].name)))
              && d.datasets[k].backgroundColor == Palette.Colors[k % 10]
              && d.datasets[k].borderColor == Palette.BorderOf(d.datasets[k].backgroundColor)
              && d.datasets[k].borderWidth == 1
  {
    var d := TopAreasDistributionOf(topAreas, rows);
    if topAreas != [] && rows != [] {
      forall k, i | 0 <= k < |d.datasets| && 0 <= i < |topAreas|
        ensures d.datasets[k].data[i] == OrZero(LastCount(rows, topAreas[i], d.datasets[k].name))
      {
        CellOfRankedArea(topAreas, rows, i, d.datasets[k].name);
      }
    }
  }
}
