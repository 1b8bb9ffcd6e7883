/** `getAreaPricePopularity`: average price and number of listings per area, for a bubble chart. */
module AreaPricePopularityRoute {
  import opened Wrappers
  import opened Text

  /** A query row: area (possibly null or empty), `ROUND(AVG(actual_worth), 2)` and `COUNT(*)`. */
  datatype AreaRow = AreaRow(area: Option<string>, avgPrice: real, totalListings: nat)

  /** One bubble: position (`x` price, `y` listings) and the same values under their own names. */
  datatype Bubble = Bubble(x: real, y: int, area: string, avgPrice: real, totalListings: int)

  /** The route's JSON: `{areas, data}`. */
  datatype AreaPopularity = AreaPopularity(areas: seq<string>, data: seq<Bubble>)

  function BubbleOf(row: AreaRow): Bubble
  {
    Bubble(row.avgPrice, row.totalListings, OrUnknown(row.area), row.avgPrice, row.totalListings)
  }

  /**
   * The route's JSON for the query's rows: `areas` and `data` run in row
   * order, each bubble carries its own area label, and its coordinates are
   * the average price and the listing count it also reports.
   */
  function AreaPricePopularity(rows: seq<AreaRow>): (r: AreaPopularity)
    ensures |r.areas| == |rows| && |r.data| == |rows|
    ensures forall i :: 0 <= i < |rows| ==>
              && r.areas[i] == OrUnknown(rows[i].area)
              && r.data[i].area == r.areas[i]
              && r.data[i].x == r.data[i].avgPrice == rows[i].avgPrice
              && r.data[i].y == r.data[i].totalListings == rows[i].totalListings
  {
    if rows == [] then AreaPopularity([], [])
    else
      AreaPopularity(seq(|rows|, i requires 0 <= i < |rows| => OrUnknown(rows[i].area)),
                     seq(|rows|, i requires 0 <= i < |rows| => BubbleOf(rows[i])))
  }
}
