/**
 * The row-to-matrix reshape shared by the two stacked-bar routes: grouped
 * (area, property type, count) rows are gathered into a nested map
 * `areaDataMap[area][propertyType] = count` and a set of property types,
 * then read out densely as one series per property type.
 */
module PivotTable {
  import opened Wrappers
  import opened Text
  import opened StringOrder
  import Palette

  /** One grouped query row: `area_name_en`, `property_type_en` (either may be null or empty) and `COUNT(*)`. */
  datatype PivotRow = PivotRow(area: Option<string>, propertyType: Option<string>, count: nat)

  /** A chart series (`name` is the JSON field `label`): one property type, one value per label, and its colours. */
  datatype Dataset = Dataset(name: string, data: seq<nat>, backgroundColor: string, borderColor: string, borderWidth: nat)

  /** `areaDataMap`: area, then property type, to count. */
  type Table = map<string, map<string, nat>>

  function AreaKey(row: PivotRow): string
  {
    OrUnknown(row.area)
  }

  function TypeKey(row: PivotRow): string
  {
    OrUnknown(row.propertyType)
  }

  /** The distinct normalised areas of the rows. */
  function AreaSet(rows: seq<PivotRow>): set<string>
  {
    set r | r in rows :: AreaKey(r)
  }

  /** The distinct normalised property types of the rows. */
  function TypeSet(rows: seq<PivotRow>): set<string>
  {
    set r | r in rows :: TypeKey(r)
  }

  /** One pass of the loop body: create the area's entry if missing, then set the type's count. */
  function Record(table: Table, row: PivotRow): Table
  {
    var area := AreaKey(row);
    var inner := if area in table then table[area] else map[];
    table[area := inner[TypeKey(row) := row.count]]
  }

  /** `areaDataMap` after the loop has run over `rows`. */
  function TableOf(rows: seq<PivotRow>): Table
    decreases |rows|
  {
    if rows == [] then map[] else Record(TableOf(rows[..|rows| - 1]), rows[|rows| - 1])
  }

  /**
   * `Object.keys(areaDataMap)` before sorting, as the areas in the order they
   * were first seen. JavaScript lists integer-like keys (such as "12") first,
   * in numeric order; the routes sort the keys at once, and a sorted order
   * depends only on the set of keys (StringOrder.AscendingUnique), so the
   * model keeps plain insertion order.
   */
  function AreaOrder(rows: seq<PivotRow>): seq<string>
    decreases |rows|
  {
    if rows == [] then []
    else
      var seen := AreaOrder(rows[..|rows| - 1]);
      var area := AreaKey(rows[|rows| - 1]);
      if area in seen then seen else seen + [area]
  }

  /** `Array.from(propertyTypesSet)` before sorting: a set iterates in insertion order. */
  function TypeOrder(rows: seq<PivotRow>): seq<string>
    decreases |rows|
  {
    if rows == [] then []
    else
      var seen := TypeOrder(rows[..|rows| - 1]);
      var ptype := TypeKey(rows[|rows| - 1]);
      if ptype in seen then seen else seen + [ptype]
  }

  /** The count of the last row keyed (area, ptype), if any: a later row overwrites an earlier one. */
  function LastCount(rows: seq<PivotRow>, area: string, ptype: string): Option<nat>
    decreases |rows|
  {
    if rows == [] then None
    else
      var row := rows[|rows| - 1];
      if AreaKey(row) == area && TypeKey(row) == ptype then Some(row.count)
      else LastCount(rows[..|rows| - 1], area, ptype)
  }

  function OrZero(c: Option<nat>): nat
  {
    if c.Some? then c.value else 0
  }

  lemma {:induction false} AreaOrderSpec(rows: seq<PivotRow>)
    ensures Distinct(AreaOrder(rows)) && Elems(AreaOrder(rows)) == AreaSet(rows)
    decreases |rows|
  {
    if rows != [] {
      var prefix := rows[..|rows| - 1];
      AreaOrderSpec(prefix);
      assert rows == prefix + [rows[|rows| - 1]];
      assert AreaSet(rows) == AreaSet(prefix) + {AreaKey(rows[|rows| - 1])};
    }
  }

  lemma {:induction false} TypeOrderSpec(rows: seq<PivotRow>)
    ensures Distinct(TypeOrder(rows)) && Elems(TypeOrder(rows)) == TypeSet(rows)
    decreases |rows|
  {
    if rows != [] {
      var prefix := rows[..|rows| - 1];
      TypeOrderSpec(prefix);
      assert rows == prefix + [rows[|rows| - 1]];
      assert TypeSet(rows) == TypeSet(prefix) + {TypeKey(rows[|rows| - 1])};
    }
  }

  /** The map has an entry for exactly the areas of the rows. */
  lemma {:induction false} TableKeys(rows: seq<PivotRow>)
    ensures TableOf(rows).Keys == AreaSet(rows)
    decreases |rows|
  {
    if rows != [] {
      var prefix := rows[..|rows| - 1];
      TableKeys(prefix);
      assert rows == prefix + [rows[|rows| - 1]];
      assert AreaSet(rows) == AreaSet(prefix) + {AreaKey(rows[|rows| - 1])};
    }
  }

  /** An area no row names has no recorded count for any property type. */
  lemma {:induction false} LastCountOfAbsentArea(rows: seq<PivotRow>, area: string, ptype: string)
    requires forall r :: r in rows ==> AreaKey(r) != area
    ensures LastCount(rows, area, ptype) == None
    decreases |rows|
  {
    if rows != [] {
      var prefix := rows[..|rows| - 1];
      assert rows[|rows| - 1] in rows;
      forall r | r in prefix ensures AreaKey(r) != area {
        var j :| 0 <= j < |prefix| && prefix[j] == r;
        assert rows[j] == r;
      }
      LastCountOfAbsentArea(prefix, area, ptype);
    }
  }

  /** Last write wins: the map holds a count for (area, ptype) exactly when a row has that key, and it is the last such row's. */
  lemma {:induction false} TableLookup(rows: seq<PivotRow>, area: string, ptype: string)
    ensures (area in TableOf(rows) && ptype in TableOf(rows)[area]) <==> LastCount(rows, area, ptype).Some?
    ensures LastCount(rows, area, ptype).Some? ==> TableOf(rows)[area][ptype] == LastCount(rows, area, ptype).value
    decreases |rows|
  {
    if rows != [] {
      TableLookup(rows[..|rows| - 1], area, ptype);
    }
  }

  /**
   * The body of `rows.forEach`: fills `areaDataMap` and `propertyTypesSet`
   * in place. The key sequences stand for the insertion order of the
   * object's keys and of the set.
   */
  method Accumulate(rows: seq<PivotRow>) returns (table: Table, areas: seq<string>, types: seq<string>)
    ensures table == TableOf(rows)
    ensures areas == AreaOrder(rows) && types == TypeOrder(rows)
  {
    table, areas, types := map[], [], [];
    var i := 0;
    while i < |rows|
      invariant 0 <= i <= |rows|
      invariant table == TableOf(rows[..i])
      invariant areas == AreaOrder(rows[..i]) && types == TypeOrder(rows[..i])
      invariant table.Keys == Elems(areas)
    {
      var row := rows[i];
      var area := AreaKey(row);
      var ptype := TypeKey(row);
      if area !in table {
        table := table[area := map[]];
        areas := areas + [area];
      }
      table := table[area := table[area][ptype := row.count]];
      if ptype !in types {
        types := types + [ptype];
      }
      assert rows[..i + 1][..i] == rows[..i];
      i := i + 1;
    }
    assert rows[..|rows|] == rows;
  }

  /** `areaDataMap[area][propertyType] || 0`. */
  function Cell(table: Table, area: string, ptype: string): (c: nat)
    requires area in table
    ensures ptype in table[area] ==> c == table[area][ptype]
    ensures c != 0 ==> ptype in table[area]
  {
    if ptype in table[area] then table[area][ptype] else 0
  }

  /** A cell of the map built from `rows` is the last count recorded for its key, or 0. */
  lemma CellOfTable(rows: seq<PivotRow>, area: string, ptype: string)
    requires area in TableOf(rows)
    ensures Cell(TableOf(rows), area, ptype) == OrZero(LastCount(rows, area, ptype))
  {
    TableLookup(rows, area, ptype);
  }

  predicate Covers(table: Table, labels: seq<string>)
  {
    forall i :: 0 <= i < |labels| ==> labels[i] in table
  }

  /**
   * The series names, in dataset order: the lemmas about dataset order
   * compare this sequence with the sorted property types, and its ensures
   * turns such an equality back into a fact about each dataset's name.
   */
  function Names(datasets: seq<Dataset>): (names: seq<string>)
    ensures |names| == |datasets| && forall k :: 0 <= k < |datasets| ==> names[k] == datasets[k].name
  {
    seq(|datasets|, k requires 0 <= k < |datasets| => datasets[k].name)
  }

  /** `propertyTypes.map(...)`: one dataset per property type, its data `areas.map(area => cell)`. */
  function Datasets(labels: seq<string>, types: seq<string>, table: Table): (ds: seq<Dataset>)
    requires Covers(table, labels)
    ensures Names(ds) == types
    ensures forall k :: 0 <= k < |ds| ==>
              && |ds[k].data| == |labels|
              && ds[k].backgroundColor == Palette.Colors[k % 10]
              && ds[k].borderColor == Palette.BorderOf(ds[k].backgroundColor)
              && ds[k].borderWidth == 1
    ensures forall k, i :: 0 <= k < |ds| && 0 <= i < |labels| ==> ds[k].data[i] == Cell(table, labels[i], types[k])
  {
    seq(|types|, k requires 0 <= k < |types| =>
      var color := Palette.ColorAt(k);
      Dataset(types[k],
              seq(|labels|, i requires 0 <= i < |labels| => Cell(table, labels[i], types[k])),
              color, Palette.BorderOf(color), 1))
  }
}
