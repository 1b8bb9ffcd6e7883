/** The single-series chart shape `{labels, data}` and the row mapping every such route performs. */
module SeriesData {

  /** Parallel `labels` and `data` arrays. */
  datatype Series<V> = Series(labels: seq<string>, data: seq<V>)

  /** `{labels: rows.map(labelOf), data: rows.map(valueOf)}`, built from the first row onwards. */
  function Project<R, V>(rows: seq<R>, labelOf: R -> string, valueOf: R -> V): (s: Series<V>)
    ensures |s.labels| == |rows| && |s.data| == |rows|
    ensures forall i :: 0 <= i < |rows| ==> s.labels[i] == labelOf(rows[i]) && s.data[i] == valueOf(rows[i])
    decreases |rows|
  {
    if rows == [] then Series([], [])
    else
      var rest := Project(rows[1..], labelOf, valueOf);
      assert forall i :: 0 < i < |rows| ==> rows[1..][i - 1] == rows[i];
      Series([labelOf(rows[0])] + rest.labels, [valueOf(rows[0])] + rest.data)
  }
}
