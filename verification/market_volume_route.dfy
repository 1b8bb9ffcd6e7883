/** `getMarketVolume`: transactions per year as `{labels: year strings, data: counts}`. */
module MarketVolumeRoute {
  import opened Wrappers
  import opened Decimal
  import opened SeriesData

  /** A query row: `YEAR(instance_date)` and `COUNT(*) AS total_sales`. */
  datatype YearRow = YearRow(year: int, totalSales: nat)

  function YearLabel(row: YearRow): string
  {
    IntToString(row.year)
  }

  function TotalSales(row: YearRow): int
  {
    row.totalSales
  }

  /** The route's JSON for the query's rows, year order kept. */
  function MarketVolume(rows: seq<YearRow>): (r: Series<int>)
    ensures |r.labels| == |rows| && |r.data| == |rows|
    ensures forall i :: 0 <= i < |rows| ==> r.labels[i] == IntToString(rows[i].year) && r.data[i] == rows[i].totalSales
  {
    if rows == [] then Series([], []) else Project(rows, YearLabel, TotalSales)
  }

  /** Reads a `{labels, data}` pair back into year rows; `None` if lengths differ, a label is not a number or a count is negative. */
  function ReadBack(labels: seq<string>, data: seq<int>): Option<seq<YearRow>>
    decreases |labels|
  {
    if |labels| != |data| then None
    else if labels == [] then Some([])
    else
      match ParseInt(labels[0])
      case None => None
      case Some(year) =>
        if data[0] < 0 then None
        else
          match ReadBack(labels[1..], data[1..])
          case None => None
          case Some(rest) => Some([YearRow(year, data[0])] + rest)
  }

  /** Every label parses back to its row's year: the client's year filter sees the years the query grouped by. */
  lemma LabelsParseToYears(rows: seq<YearRow>)
    ensures forall i :: 0 <= i < |rows| ==> ParseInt(MarketVolume(rows).labels[i]) == Some(rows[i].year)
  {
    forall i | 0 <= i < |rows| ensures ParseInt(MarketVolume(rows).labels[i]) == Some(rows[i].year) {
      ParseIntOfIntToString(rows[i].year);
    }
  }

  /** The reshape loses nothing: reading the labels and data back gives the query's rows. */
  lemma {:induction false} RoundTrip(rows: seq<YearRow>)
    ensures ReadBack(MarketVolume(rows).labels, MarketVolume(rows).data) == Some(rows)
    decreases |rows|
  {
    if rows != [] {
      var tail := MarketVolume(rows[1..]);
      MarketVolumeCons(rows);
      RoundTrip(rows[1..]);
      ParseIntOfIntToString(rows[0].year);
      ReadBackCons(IntToString(rows[0].year), rows[0].totalSales, tail.labels, tail.data);
      assert rows == [rows[0]] + rows[1..];
    }
  }

  /** The first row gives the first label and count; the rest give the rest. */
  lemma MarketVolumeCons(rows: seq<YearRow>)
    requires rows != []
    ensures MarketVolume(rows).labels == [IntToString(rows[0].year)] + MarketVolume(rows[1..]).labels
    ensures MarketVolume(rows).data == [rows[0].totalSales] + MarketVolume(rows[1..]).data
  {
    if |rows| == 1 {
      assert rows[1..] == [];
    }
  }

  /** A numeric label and a count in front read back as one more row in front. */
  lemma ReadBackCons(text: string, count: nat, labels: seq<string>, data: seq<int>)
    requires ParseInt(text).Some? && ReadBack(labels, data).Some?
    ensures ReadBack([text] + labels, [count] + data) == Some([YearRow(ParseInt(text).value, count)] + ReadBack(labels, data).value)
  {
    assert ([text] + labels)[1..] == labels;
    assert ([count] + data)[1..] == data;
  }
}
