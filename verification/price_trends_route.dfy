/** `getPriceTrends`: average price per year, or per month, with its period echoed. */
module PriceTrendsRoute {
  import opened Wrappers
  import opened Decimal

  /** The AED to USD rate the averages are divided by. */
  const AedToUsdRate: real := 3.67

  /** A query row: `YEAR(...)`, `MONTH(...)` (monthly query only) and `AVG(actual_worth)`. */
  datatype TrendRow = TrendRow(year: int, month: int, avgPrice: real)

  /** The route's JSON: `{labels, data, period}`. */
  datatype Trends = Trends(labels: seq<string>, data: seq<real>, period: string)

  const MonthNames: seq<string> := ["Jan", "Feb", "Mar", "Apr", "May", "Jun", "Jul", "Aug", "Sep", "Oct", "Nov", "Dec"]

  /** `monthNames[month - 1]`, which is `undefined` outside 1..12 and then prints as "undefined". */
  function MonthName(month: int): string
  {
    if 1 <= month <= 12 then MonthNames[month - 1] else "undefined"
  }

  /**
   * `` `${monthNames[row.month - 1]} ${row.year}` ``. A label of a month in
   * 1..12 names its month and year without ambiguity: reading it back
   * recovers both. Any other month gives "undefined" and the year.
   */
  function MonthLabel(month: int, year: int): (text: string)
    ensures 1 <= month <= 12 ==> ParseMonthLabel(text) == Some((month, year))
    ensures !(1 <= month <= 12) ==> |text| > 10 && text[..10] == "undefined " && ParseInt(text[10..]) == Some(year)
  {
    if 1 <= month <= 12 then
      ReadMonthText(month - 1, year);
      MonthName(month) + " " + IntToString(year)
    else
      ReadUndefinedText(year);
      MonthName(month) + " " + IntToString(year)
  }

  /** The text of month `k + 1` of `year` reads back to that month and year. */
  lemma ReadMonthText(k: nat, year: int)
    requires k < 12
    ensures ParseMonthLabel(MonthNames[k] + " " + IntToString(year)) == Some((k + 1, year))
  {
    var name, digits := MonthNames[k], IntToString(year);
    var text := name + " " + digits;
    assert |name| == 3;
    assert text[..3] == name && text[3] == ' ' && text[4..] == digits;
    MonthNumberOf(k);
    ParseIntOfIntToString(year);
  }

  /** Each abbreviation is found at its own position. */
  lemma MonthNumberOf(k: nat)
    requires k < 12
    ensures MonthNumber(MonthNames[k]) == Some(k + 1)
  {
    MonthNamesDistinct();
  }

  /** After "undefined " the label still holds the year. */
  lemma ReadUndefinedText(year: int)
    ensures var text := "undefined " + IntToString(year);
            text[..10] == "undefined " && ParseInt(text[10..]) == Some(year)
  {
    var text := "undefined " + IntToString(year);
    assert text[10..] == IntToString(year);
    ParseIntOfIntToString(year);
  }

  /** Any period but 'monthly' takes the yearly query and yearly labels. */
  predicate IsMonthly(period: string)
  {
    period == "monthly"
  }

  function LabelOf(row: TrendRow, period: string): string
  {
    if IsMonthly(period) then MonthLabel(row.month, row.year) else IntToString(row.year)
  }

  /**
   * The route's JSON for the rows of the query `period` selects: one label
   * and one converted average per row, in row order, and the period as given.
   */
  function PriceTrends(rows: seq<TrendRow>, period: string): (r: Trends)
    ensures r.period == period
    ensures |r.labels| == |rows| && |r.data| == |rows|
    ensures forall i :: 0 <= i < |rows| ==>
              && r.labels[i] == (if period == "monthly" then MonthLabel(rows[i].month, rows[i].year) else IntToString(rows[i].year))
              && r.data[i] * AedToUsdRate == rows[i].avgPrice
  {
    if rows == [] then Trends([], [], period)
    else
      Trends(seq(|rows|, i requires 0 <= i < |rows| => LabelOf(rows[i], period)),
             seq(|rows|, i requires 0 <= i < |rows| => rows[i].avgPrice / AedToUsdRate),
             period)
  }

  /** Position of a month abbreviation, 1 for "Jan"; `None` for anything else. */
  function MonthNumber(name: string): Option<int>
  {
    if name in MonthNames then
      var k :| 0 <= k < 12 && MonthNames[k] == name; Some(k + 1)
    else None
  }

  /** Reads a monthly label back into (month, year). */
  function ParseMonthLabel(text: string): Option<(int, int)>
  {
    if |text| < 5 || text[3] != ' ' then None
    else
      match (MonthNumber(text[..3]), ParseInt(text[4..]))
      case (Some(month), Some(year)) => Some((month, year))
      case _ => None
  }

  lemma MonthNamesDistinct()
    ensures forall j, k :: 0 <= j < k < 12 ==> MonthNames[j] != MonthNames[k]
  {
    forall j, k | 0 <= j < k < 12 ensures MonthNames[j] != MonthNames[k] {
      assert |MonthNames[j]| == 3;
      assert MonthNames[j][0] != MonthNames[k][0] || MonthNames[j][1] != MonthNames[k][1] || MonthNames[j][2] != MonthNames[k][2];
    }
  }

  /**
   * Every label of the route's reply reads back as its row's period key:
   * (month, year) for monthly rows with a month in 1..12, the year otherwise.
   */
  lemma LabelsReadBack(rows: seq<TrendRow>, period: string)
    ensures var r := PriceTrends(rows, period);
            forall i :: 0 <= i < |rows| ==>
              if IsMonthly(period) then
                1 <= rows[i].month <= 12 ==> ParseMonthLabel(r.labels[i]) == Some((rows[i].month, rows[i].year))
              else
                ParseInt(r.labels[i]) == Some(rows[i].year)
  {
    var r := PriceTrends(rows, period);
    if IsMonthly(period) {
      forall i | 0 <= i < |rows| && 1 <= rows[i].month <= 12
        ensures ParseMonthLabel(r.labels[i]) == Some((rows[i].month, rows[i].year))
      {
        assert r.labels[i] == MonthLabel(rows[i].month, rows[i].year);
      }
    } else {
      forall i | 0 <= i < |rows| ensures ParseInt(r.labels[i]) == Some(rows[i].year) {
        ParseIntOfIntToString(rows[i].year);
      }
    }
  }

  /** Month 3 of 2021 is labelled "Mar 2021". */
  lemma MarchLabel()
    ensures MonthLabel(3, 2021) == "Mar 2021"
  {
    assert NatToString(2) == "2";
    assert NatToString(20) == "20";
    assert NatToString(202) == "202";
    assert NatToString(2021) == "2021";
  }
}
