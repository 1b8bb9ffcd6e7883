/**
 * The MarketVolume component's data handling: dropping the incomplete
 * current year after the fetch, the year-range filter, and the choice of
 * which data the bar chart shows. The clock's year is the `currentYear`
 * parameter.
 */
module MarketVolumeView {
  import opened Wrappers
  import opened Decimal
  import opened SeriesData

  /** The fetched JSON: either field may be missing. */
  datatype VolumeJson = VolumeJson(labels: Option<seq<string>>, data: Option<seq<int>>)

  /** Years kept: `lo <= year` when there is a lower bound, and `year <= hi`. */
  datatype Window = Window(lo: Option<int>, hi: int)

  /** The bar chart's data: the labels and its one dataset. */
  datatype VolumeChart = VolumeChart(labels: seq<string>, datasetLabel: string, data: seq<int>)

  /** `parseInt(label)` is a year inside the window; NaN fails every comparison, so such an entry is dropped. */
  predicate InWindow(text: string, w: Window)
  {
    match ParseInt(text)
    case None => false
    case Some(year) => (w.lo.None? || w.lo.value <= year) && year <= w.hi
  }

  predicate Increasing(idx: seq<nat>)
  {
    forall j, k :: 0 <= j < k < |idx| ==> idx[j] < idx[k]
  }

  /** Positions of the entries inside the window, in ascending order. */
  function KeptIndices(labels: seq<string>, w: Window): (idx: seq<nat>)
    ensures Increasing(idx)
    ensures forall j :: 0 <= j < |idx| ==> idx[j] < |labels|
    decreases |labels|
  {
    if labels == [] then []
    else
      var before := KeptIndices(labels[..|labels| - 1], w);
      if InWindow(labels[|labels| - 1], w) then before + [|labels| - 1] else before
  }

  /** A position is kept exactly when its label's year is inside the window. */
  lemma {:induction false} KeptIndicesExact(labels: seq<string>, w: Window)
    ensures forall i :: 0 <= i < |labels| ==> (i in KeptIndices(labels, w) <==> InWindow(labels[i], w))
    decreases |labels|
  {
    if labels != [] {
      var prefix := labels[..|labels| - 1];
      KeptIndicesExact(prefix, w);
      forall i | 0 <= i < |labels| - 1 ensures labels[i] == prefix[i] { }
    }
  }

  /**
   * `idx.map(i => xs[i])`: labels and values picked at the same indices, so
   * that the loop invariants and SelectExact can speak of entry j of either.
   */
  function Gather<T>(xs: seq<T>, idx: seq<nat>): (r: seq<T>)
    requires forall j :: 0 <= j < |idx| ==> idx[j] < |xs|
    ensures |r| == |idx| && forall j :: 0 <= j < |idx| ==> r[j] == xs[idx[j]]
  {
    seq(|idx|, j requires 0 <= j < |idx| => xs[idx[j]])
  }

  /** The entries whose year is inside the window, labels and values kept side by side, in their original order. */
  function Select(labels: seq<string>, data: seq<int>, w: Window): Series<int>
    requires |labels| == |data|
  {
    var idx := KeptIndices(labels, w);
    Series(Gather(labels, idx), Gather(data, idx))
  }

  /**
   * The `labels.forEach` that pushes each kept label onto `filteredLabels`
   * and the value at the same index onto `filteredValues`.
   */
  method SelectYears(labels: seq<string>, data: seq<int>, w: Window) returns (result: Series<int>)
    requires |labels| == |data|
    ensures result == Select(labels, data, w)
  {
    var filteredLabels: seq<string> := [];
    var filteredValues: seq<int> := [];
    var i := 0;
    while i < |labels|
      invariant 0 <= i <= |labels|
      invariant filteredLabels == Gather(labels, KeptIndices(labels[..i], w))
      invariant filteredValues == Gather(data, KeptIndices(labels[..i], w))
    {
      assert labels[..i + 1][..i] == labels[..i];
      if InWindow(labels[i], w) {
        filteredLabels := filteredLabels + [labels[i]];
        filteredValues := filteredValues + [data[i]];
      }
      i := i + 1;
    }
    assert labels[..|labels|] == labels;
    result := Series(filteredLabels, filteredValues);
  }

  /**
   * Selection keeps exactly the entries inside the window, in order, each
   * label with its own value: the result is the input at the kept positions.
   */
  lemma SelectExact(labels: seq<string>, data: seq<int>, w: Window)
    requires |labels| == |data|
    ensures var r, idx := Select(labels, data, w), KeptIndices(labels, w);
            && |r.labels| == |r.data| == |idx|
            && Increasing(idx)
            && (forall j :: 0 <= j < |idx| ==> r.labels[j] == labels[idx[j]] && r.data[j] == data[idx[j]] && InWindow(r.labels[j], w))
            && (forall i :: 0 <= i < |labels| ==> (i in idx <==> InWindow(labels[i], w)))
  {
    KeptIndicesExact(labels, w);
    var idx := KeptIndices(labels, w);
    forall j | 0 <= j < |idx| ensures InWindow(labels[idx[j]], w) {
      assert idx[j] in idx;
    }
  }

  /** The fetch's clean-up: keep the years before the current one (`year < currentYear`); missing fields give empty arrays. */
  function Cleaned(json: VolumeJson, currentYear: int): Series<int>
    requires json.labels.Some? && json.data.Some? ==> |json.labels.value| == |json.data.value|
  {
    if json.labels.Some? && json.data.Some? then
      Select(json.labels.value, json.data.value, Window(None, currentYear - 1))
    else
      Series([], [])
  }

  /**
   * The clean-up keeps exactly the entries whose label parses to a year
   * before the current one, in order and each with its own value; a
   * missing field leaves nothing.
   */
  lemma CleanKeepsCompleteYears(json: VolumeJson, currentYear: int)
    requires json.labels.Some? && json.data.Some? ==> |json.labels.value| == |json.data.value|
    ensures json.labels.None? || json.data.None? ==> Cleaned(json, currentYear) == Series([], [])
    ensures json.labels.Some? && json.data.Some? ==>
              var labels, data := json.labels.value, json.data.value;
              var r, idx := Cleaned(json, currentYear), KeptIndices(labels, Window(None, currentYear - 1));
              && |r.labels| == |r.data| == |idx|
              && Increasing(idx)
              && (forall j :: 0 <= j < |idx| ==> r.labels[j] == labels[idx[j]] && r.data[j] == data[idx[j]])
              && (forall i :: 0 <= i < |labels| ==>
                    (i in idx <==> ParseInt(labels[i]).Some? && ParseInt(labels[i]).value < currentYear))
  {
    if json.labels.Some? && json.data.Some? {
      SelectExact(json.labels.value, json.data.value, Window(None, currentYear - 1));
    }
  }

  /** The clean-up in `fetchMarketVolume`, after `response.json()`. */
  method CleanIncompleteYears(json: VolumeJson, currentYear: int) returns (cleaned: Series<int>)
    requires json.labels.Some? && json.data.Some? ==> |json.labels.value| == |json.data.value|
    ensures cleaned == Cleaned(json, currentYear)
  {
    if json.labels.Some? && json.data.Some? {
      cleaned := SelectYears(json.labels.value, json.data.value, Window(None, currentYear - 1));
    } else {
      cleaned := Series([], []);
    }
  }

  /**
   * `startYear` as the filter's `switch` sets it, from the last complete
   * year `currentYear - 1`; `None` for 'all' and any other filter, which
   * leave the data unfiltered. 'lastN' windows hold exactly N complete years.
   */
  function StartYear(filter: string, currentYear: int): (start: Option<int>)
    ensures filter == "last10" ==> start == Some(currentYear - 10) && (currentYear - 1) - start.value + 1 == 10
    ensures filter == "last20" ==> start == Some(currentYear - 20) && (currentYear - 1) - start.value + 1 == 20
    ensures filter == "last30" ==> start == Some(currentYear - 30) && (currentYear - 1) - start.value + 1 == 30
    ensures filter == "since2000" ==> start == Some(2000)
    ensures filter == "since2010" ==> start == Some(2010)
    ensures filter !in {"last10", "last20", "last30", "since2000", "since2010"} ==> start.None?
  {
    var lastCompleteYear := currentYear - 1;
    if filter == "all" then None
    else if filter == "last10" then Some(lastCompleteYear - 9)
    else if filter == "last20" then Some(lastCompleteYear - 19)
    else if filter == "last30" then Some(lastCompleteYear - 29)
    else if filter == "since2000" then Some(2000)
    else if filter == "since2010" then Some(2010)
    else None
  }

  predicate WellFormed(data: Option<Series<int>>)
  {
    data.Some? ==> |data.value.labels| == |data.value.data|
  }

  /** What `applyFilter` stores as `filteredData`. */
  function Filtered(data: Option<Series<int>>, filter: string, currentYear: int): Option<Series<int>>
    requires WellFormed(data)
  {
    if data.None? || |data.value.labels| == 0 then None
    else if filter == "all" then data
    else
      match StartYear(filter, currentYear)
      case None => data
      case Some(start) => Some(Select(data.value.labels, data.value.data, Window(Some(start), currentYear - 1)))
  }

  /** `applyFilter(data, filter)`. */
  method ApplyFilter(data: Option<Series<int>>, filter: string, currentYear: int) returns (filteredData: Option<Series<int>>)
    requires WellFormed(data)
    ensures filteredData == Filtered(data, filter, currentYear)
  {
    if data.None? || |data.value.labels| == 0 {
      return None;
    }
    if filter == "all" {
      return data;
    }
    var lastCompleteYear := currentYear - 1;
    var startYear := StartYear(filter, currentYear);
    if startYear.None? {
      return data;
    }
    var selected := SelectYears(data.value.labels, data.value.data, Window(Some(startYear.value), lastCompleteYear));
    filteredData := Some(selected);
  }

  /** `chartData`: the filtered data if there is any, else the fetched data; nothing if neither. */
  function ChartData(filteredData: Option<Series<int>>, volumeData: Option<Series<int>>): (chart: Option<VolumeChart>)
    ensures chart.None? <==> filteredData.None? && volumeData.None?
    ensures filteredData.Some? ==> chart.value.labels == filteredData.value.labels && chart.value.data == filteredData.value.data
    ensures filteredData.None? && volumeData.Some? ==> chart.value.labels == volumeData.value.labels && chart.value.data == volumeData.value.data
  {
    var source := if filteredData.Some? then filteredData else volumeData;
    match source
    case None => None
    case Some(d) => Some(VolumeChart(d.labels, "Number of Transactions", d.data))
  }

  /** No data, or no labels, gives no filtered data; 'all' and unknown filters hand the data back unchanged. */
  lemma FilterPassThrough(data: Option<Series<int>>, filter: string, currentYear: int)
    requires WellFormed(data)
    ensures data.None? || data.value.labels == [] ==> Filtered(data, filter, currentYear).None?
    ensures data.Some? && data.value.labels != [] && StartYear(filter, currentYear).None? ==> Filtered(data, filter, currentYear) == data
  {
  }

  /**
   * A named window keeps exactly the entries whose year lies between the
   * start year and the last complete year, in order, labels and values aligned.
   */
  lemma FilterWindow(data: Series<int>, filter: string, currentYear: int)
    requires |data.labels| == |data.data| && data.labels != []
    requires StartYear(filter, currentYear).Some?
    ensures var start := StartYear(filter, currentYear).value;
            var w := Window(Some(start), currentYear - 1);
            && Filtered(Some(data), filter, currentYear) == Some(Select(data.labels, data.data, w))
            && (forall j :: 0 <= j < |Select(data.labels, data.data, w).labels| ==>
                  var year := ParseInt(Select(data.labels, data.data, w).labels[j]);
                  year.Some? && start <= year.value <= currentYear - 1)
  {
    var w := Window(Some(StartYear(filter, currentYear).value), currentYear - 1);
    SelectExact(data.labels, data.data, w);
  }

  /** Every label the clean-up keeps is a year before the current one. */
  lemma CleanedBeforeCurrentYear(json: VolumeJson, currentYear: int)
    requires json.labels.Some? && json.data.Some? ==> |json.labels.value| == |json.data.value|
    ensures var volume := Cleaned(json, currentYear);
            |volume.labels| == |volume.data|
            && forall j :: 0 <= j < |volume.labels| ==> InWindow(volume.labels[j], Window(None, currentYear - 1))
  {
    if json.labels.Some? && json.data.Some? {
      SelectExact(json.labels.value, json.data.value, Window(None, currentYear - 1));
    }
  }

  /** Filtering never brings in a label: if every label is before the current year, so is every filtered one. */
  lemma FilteredBeforeCurrentYear(volume: Series<int>, filter: string, currentYear: int)
    requires |volume.labels| == |volume.data|
    requires forall j :: 0 <= j < |volume.labels| ==> InWindow(volume.labels[j], Window(None, currentYear - 1))
    ensures var filtered := Filtered(Some(volume), filter, currentYear);
            filtered.Some? ==>
              forall j :: 0 <= j < |filtered.value.labels| ==> InWindow(filtered.value.labels[j], Window(None, currentYear - 1))
  {
    var start := StartYear(filter, currentYear);
    if volume.labels != [] && filter != "all" && start.Some? {
      var w := Window(Some(start.value), currentYear - 1);
      SelectExact(volume.labels, volume.data, w);
      var r := Select(volume.labels, volume.data, w);
      forall j | 0 <= j < |r.labels| ensures InWindow(r.labels[j], Window(None, currentYear - 1)) {
        assert InWindow(r.labels[j], w);
      }
    }
  }

  /**
   * Whatever filter is chosen, the chart built after a fetch shows no
   * entry for the current (incomplete) year or later, nor one whose label
   * is not a year.
   */
  lemma NoIncompleteYearShown(json: VolumeJson, filter: string, currentYear: int)
    requires json.labels.Some? && json.data.Some? ==> |json.labels.value| == |json.data.value|
    ensures var volume := Cleaned(json, currentYear);
            var chart := ChartData(Filtered(Some(volume), filter, currentYear), Some(volume));
            chart.Some? && forall j :: 0 <= j < |chart.value.labels| ==>
              ParseInt(chart.value.labels[j]).Some? && ParseInt(chart.value.labels[j]).value < currentYear
  {
    var volume := Cleaned(json, currentYear);
    CleanedBeforeCurrentYear(json, currentYear);
    FilteredBeforeCurrentYear(volume, filter, currentYear);
    var chart := ChartData(Filtered(Some(volume), filter, currentYear), Some(volume));
    forall j | 0 <= j < |chart.value.labels|
      ensures ParseInt(chart.value.labels[j]).Some? && ParseInt(chart.value.labels[j]).value < currentYear
    {
      assert InWindow(chart.value.labels[j], Window(None, currentYear - 1));
    }
  }
}
