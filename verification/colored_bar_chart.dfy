/**
 * `chartData` of the RoomTypes (bar) and PropertyUsageDistribution
 * (doughnut) components, which build it the same way: one dataset over the
 * fetched labels, filled with cycled palette colours and bordered with
 * their opaque versions.
 */
module ColoredBarChart {
  import opened Wrappers
  import opened SeriesData
  import Palette

  datatype ColoredChart = ColoredChart(
    labels: seq<string>,
    datasetLabel: string,
    data: seq<int>,
    backgroundColor: seq<string>,
    borderColor: seq<string>,
    borderWidth: nat)

  /** `chartData`: nothing before data arrives; then one "Number of Properties" dataset, one fill and one border colour per label, border width 2. */
  function ChartData(fetched: Option<Series<int>>): (chart: Option<ColoredChart>)
    ensures chart.None? <==> fetched.None?
    ensures chart.Some? ==>
              var c := chart.value;
              && c.labels == fetched.value.labels && c.data == fetched.value.data
              && c.datasetLabel == "Number of Properties" && c.borderWidth == 2
              && |c.backgroundColor| == |c.labels| && |c.borderColor| == |c.labels|
              && forall i :: 0 <= i < |c.labels| ==>
                   && c.backgroundColor[i] == Palette.Colors[i % 10]
                   && c.borderColor[i] == Palette.BorderOf(c.backgroundColor[i])
  {
    match fetched
    case None => None
    case Some(d) =>
      var colors := Palette.Cycle(|d.labels|);
      Palette.CycleAt(|d.labels|);
      Some(ColoredChart(d.labels, "Number of Properties", d.data, colors,
                        seq(|colors|, i requires 0 <= i < |colors| => Palette.BorderOf(colors[i])), 2))
  }

  /** Every border is its fill colour with the alpha 0.8 turned into 1. */
  lemma BordersAreOpaqueFills(fetched: Option<Series<int>>)
    requires fetched.Some?
    ensures var c := ChartData(fetched).value;
            forall i :: 0 <= i < |c.labels| ==>
              var fill := c.backgroundColor[i];
              |fill| >= 4 && fill[|fill| - 4..] == "0.8)" && c.borderColor[i] == fill[..|fill| - 4] + "1)"
  {
    var c := ChartData(fetched).value;
    forall i | 0 <= i < |c.labels|
      ensures var fill := c.backgroundColor[i];
              |fill| >= 4 && fill[|fill| - 4..] == "0.8)" && c.borderColor[i] == fill[..|fill| - 4] + "1)"
    {
      Palette.BorderOfPalette(i);
    }
  }
}
