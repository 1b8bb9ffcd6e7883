/** `getPropertyUsageDistribution`: property counts per usage as `{labels, data}`. */
module PropertyUsageRoute {
  import opened Wrappers
  import opened Text
  import opened SeriesData

  /** A query row: `property_usage_en` and `COUNT(*) AS total`. */
  datatype UsageRow = UsageRow(propertyUsageEn: Option<string>, total: nat)

  function UsageLabel(row: UsageRow): string
  {
    OrUnknown(row.propertyUsageEn)
  }

  function UsageTotal(row: UsageRow): int
  {
    row.total
  }

  /** The route's JSON, row order kept, with the 'Unknown' fallback for a missing or empty usage. */
  function PropertyUsageDistribution(rows: seq<UsageRow>): (r: Series<int>)
    ensures |r.labels| == |rows| && |r.data| == |rows|
    ensures forall i :: 0 <= i < |rows| ==>
              && r.labels[i] == (if rows[i].propertyUsageEn.Some? && rows[i].propertyUsageEn.value != "" then rows[i].propertyUsageEn.value else Unknown)
              && r.data[i] == rows[i].total
  {
    if rows == [] then Series([], []) else Project(rows, UsageLabel, UsageTotal)
  }

  /** Rows whose usage is present and non-empty, as the query's WHERE clause guarantees. */
  predicate AllNamed(rows: seq<UsageRow>)
  {
    forall i :: 0 <= i < |rows| ==> rows[i].propertyUsageEn.Some? && rows[i].propertyUsageEn.value != ""
  }

  /** For rows the query can return, the fallback never fires: labels are exactly the usages, in row order. */
  lemma LabelsAreUsages(rows: seq<UsageRow>)
    requires AllNamed(rows)
    ensures PropertyUsageDistribution(rows).labels == seq(|rows|, i requires 0 <= i < |rows| => rows[i].propertyUsageEn.value)
  {
  }
}
