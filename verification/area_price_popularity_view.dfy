/**
 * The AreaPricePopularity component's `chartData`: the areas with the
 * highest average price, at most twenty, as a grouped bar chart of average
 * price and number of listings.
 */
module AreaPricePopularityView {
  import opened Wrappers
  import opened AreaPricePopularityRoute

  /** The fetched JSON as far as the chart reads it: its `data` array, which may be missing. */
  datatype AreaPayload = AreaPayload(data: Option<seq<Bubble>>)

  /** One bar series: its legend label and one value per area. */
  datatype BarSeries = BarSeries(name: string, data: seq<real>)

  datatype PriceChart = PriceChart(labels: seq<string>, datasets: seq<BarSeries>)

  /** `.slice(0, 20)`. */
  const TopCount: nat := 20

  predicate ByPriceDescending(s: seq<Bubble>)
  {
    forall i, j :: 0 <= i < j < |s| ==> s[i].avgPrice >= s[j].avgPrice
  }

  /** A head priced at least as high as everything after it extends a price-descending sequence. */
  lemma ConsDescending(head: Bubble, tail: seq<Bubble>)
    requires ByPriceDescending(tail)
    requires forall y :: y in tail ==> head.avgPrice >= y.avgPrice
    ensures ByPriceDescending([head] + tail)
  {
    var r := [head] + tail;
    forall i, j | 0 <= i < j < |r| ensures r[i].avgPrice >= r[j].avgPrice {
      assert r[j] == tail[j - 1];
      if i > 0 {
        assert r[i] == tail[i - 1];
      } else {
        assert tail[j - 1] in tail;
      }
    }
  }

  /** The first entry of a price-descending sequence is priced at least as high as every other. */
  lemma HeadDominates(s: seq<Bubble>)
    requires ByPriceDescending(s) && s != []
    ensures forall y :: y in s[1..] ==> s[0].avgPrice >= y.avgPrice
  {
    forall y | y in s[1..] ensures s[0].avgPrice >= y.avgPrice {
      var i :| 0 <= i < |s[1..]| && s[1..][i] == y;
      assert s[i + 1] == y;
    }
  }

  /** Places `x` before the first element it is not cheaper than. */
  function InsertByPrice(x: Bubble, s: seq<Bubble>): (r: seq<Bubble>)
    requires ByPriceDescending(s)
    ensures ByPriceDescending(r) && multiset(r) == multiset(s) + multiset{x}
  {
    if s == [] || x.avgPrice >= s[0].avgPrice then
      HeadOfInsert(x, s);
      [x] + s
    else
      var tail := InsertByPrice(x, s[1..]);
      assert s == [s[0]] + s[1..];
      HeadDominates(s);
      assert forall y :: y in tail ==> y == x || y in s[1..] by {
        forall y | y in tail ensures y == x || y in s[1..] {
          assert y in multiset(tail);
        }
      }
      ConsDescending(s[0], tail);
      [s[0]] + tail
  }

  /** An element priced at least as high as the head of a price-descending sequence can go in front of it. */
  lemma HeadOfInsert(x: Bubble, s: seq<Bubble>)
    requires ByPriceDescending(s)
    requires s == [] || x.avgPrice >= s[0].avgPrice
    ensures ByPriceDescending([x] + s)
  {
    if s != [] {
      HeadDominates(s);
      assert s == [s[0]] + s[1..];
    }
    forall y | y in s ensures x.avgPrice >= y.avgPrice {
      if y != s[0] {
        assert y in s[1..] by {
          assert s == [s[0]] + s[1..];
        }
      }
    }
    ConsDescending(x, s);
  }

  /**
   * `[...data].sort((a, b) => b.avgPrice - a.avgPrice)`: a sorted copy,
   * highest average price first; the input sequence is a value and stays as it was.
   */
  function SortByPrice(s: seq<Bubble>): (r: seq<Bubble>)
    ensures ByPriceDescending(r) && multiset(r) == multiset(s)
  {
    if s == [] then []
    else
      assert s == [s[0]] + s[1..];
      InsertByPrice(s[0], SortByPrice(s[1..]))
  }

  /** In a price-descending sequence, no entry after position k is more expensive than one before it. */
  lemma PrefixDominates(sorted: seq<Bubble>, k: nat)
    requires ByPriceDescending(sorted) && k <= |sorted|
    ensures forall x, y :: x in sorted[..k] && y in multiset(sorted) - multiset(sorted[..k]) ==> x.avgPrice >= y.avgPrice
  {
    RestAfterPrefix(sorted, k);
    forall x, y | x in sorted[..k] && y in multiset(sorted) - multiset(sorted[..k]) ensures x.avgPrice >= y.avgPrice {
      assert y in multiset(sorted[k..]);
      PairDominates(sorted, k, x, y);
    }
  }

  /** One entry of the prefix against one entry after it. */
  lemma PairDominates(sorted: seq<Bubble>, k: nat, x: Bubble, y: Bubble)
    requires ByPriceDescending(sorted) && k <= |sorted|
    requires x in sorted[..k] && y in sorted[k..]
    ensures x.avgPrice >= y.avgPrice
  {
    var i :| 0 <= i < k && sorted[..k][i] == x;
    var j :| 0 <= j < |sorted| - k && sorted[k..][j] == y;
    assert sorted[i] == x && sorted[k + j] == y;
  }

  /** What the prefix leaves out of the multiset is the rest of the sequence. */
  lemma RestAfterPrefix(s: seq<Bubble>, k: nat)
    requires k <= |s|
    ensures multiset(s) - multiset(s[..k]) == multiset(s[k..])
  {
    assert s == s[..k] + s[k..];
  }

  /**
   * The sorted copy cut to twenty: at most twenty entries, all of them when
   * there are no more, highest price first, taken from the input, and no
   * dropped entry is more expensive than a kept one.
   */
  function TopByPrice(items: seq<Bubble>): (top: seq<Bubble>)
    ensures |top| == if |items| <= TopCount then |items| else TopCount
    ensures ByPriceDescending(top)
    ensures multiset(top) <= multiset(items)
    ensures forall x, y :: x in top && y in multiset(items) - multiset(top) ==> x.avgPrice >= y.avgPrice
  {
    var sorted := SortByPrice(items);
    SortedLength(items);
    var k := if |items| <= TopCount then |items| else TopCount;
    TopFacts(items, sorted, k);
    sorted[..k]
  }

  /** The cut of a price-descending permutation of `items` keeps the order, draws from `items` and dominates what it drops. */
  lemma TopFacts(items: seq<Bubble>, sorted: seq<Bubble>, k: nat)
    requires ByPriceDescending(sorted) && multiset(sorted) == multiset(items) && k <= |sorted|
    ensures ByPriceDescending(sorted[..k])
    ensures multiset(sorted[..k]) <= multiset(items)
    ensures forall x, y :: x in sorted[..k] && y in multiset(items) - multiset(sorted[..k]) ==> x.avgPrice >= y.avgPrice
  {
    PrefixDominates(sorted, k);
    PrefixSubMultiset(sorted, k);
  }

  /** Sorting neither adds nor drops entries. */
  lemma SortedLength(items: seq<Bubble>)
    ensures |SortByPrice(items)| == |items|
  {
    var sorted := SortByPrice(items);
    assert |sorted| == |multiset(sorted)| == |multiset(items)| == |items|;
  }

  /** A prefix holds no entry more often than the whole sequence. */
  lemma PrefixSubMultiset(s: seq<Bubble>, k: nat)
    requires k <= |s|
    ensures multiset(s[..k]) <= multiset(s)
  {
    assert s == s[..k] + s[k..];
  }

  /** The bars for the given areas, in order: their names, then the average-price and total-listings series. */
  function ChartOf(top: seq<Bubble>): (c: PriceChart)
    ensures |c.labels| == |top| && |c.datasets| == 2
    ensures c.datasets[0].name == "Average Price" && c.datasets[1].name == "Total Listings"
    ensures |c.datasets[0].data| == |top| && |c.datasets[1].data| == |top|
    ensures forall i :: 0 <= i < |top| ==>
              && c.labels[i] == top[i].area
              && c.datasets[0].data[i] == top[i].avgPrice
              && c.datasets[1].data[i] == top[i].totalListings as real
  {
    var areas := seq(|top|, i requires 0 <= i < |top| => top[i].area);
    var avgPrices := seq(|top|, i requires 0 <= i < |top| => top[i].avgPrice);
    var totalListings := seq(|top|, i requires 0 <= i < |top| => top[i].totalListings as real);
    PriceChart(areas, [BarSeries("Average Price", avgPrices), BarSeries("Total Listings", totalListings)])
  }

  /** The entries priced exactly `price`, in their order in `s`. */
  function WithPrice(s: seq<Bubble>, price: real): (r: seq<Bubble>)
    ensures |r| <= |s|
  {
    if s == [] then []
    else (if s[0].avgPrice == price then [s[0]] else []) + WithPrice(s[1..], price)
  }

  /** Inserting `x` puts it before the entries of its own price and moves no other entry of that price. */
  lemma {:induction false} InsertKeepsTies(x: Bubble, s: seq<Bubble>, price: real)
    requires ByPriceDescending(s)
    ensures WithPrice(InsertByPrice(x, s), price) == (if x.avgPrice == price then [x] else []) + WithPrice(s, price)
    decreases |s|
  {
    if s == [] || x.avgPrice >= s[0].avgPrice {
      WithPriceCons(x, s, price);
    } else {
      var tail := InsertByPrice(x, s[1..]);
      WithPriceCons(s[0], tail, price);
      InsertKeepsTies(x, s[1..], price);
      WithPriceCons(s[0], s[1..], price);
      assert s == [s[0]] + s[1..];
    }
  }

  /** The priced-`price` entries of `[y] + t`: `y` if it has that price, then those of `t`. */
  lemma WithPriceCons(y: Bubble, t: seq<Bubble>, price: real)
    ensures WithPrice([y] + t, price) == (if y.avgPrice == price then [y] else []) + WithPrice(t, price)
  {
    assert ([y] + t)[1..] == t;
  }

  /**
   * The sort is stable, as `Array.prototype.sort` is required to be: the
   * entries of any one price keep the order they had in the reply.
   */
  lemma {:induction false} SortKeepsTies(s: seq<Bubble>, price: real)
    ensures WithPrice(SortByPrice(s), price) == WithPrice(s, price)
    decreases |s|
  {
    if s != [] {
      SortKeepsTies(s[1..], price);
      InsertKeepsTies(s[0], SortByPrice(s[1..]), price);
    }
  }

  /** Cutting a sequence keeps a prefix of the entries of each price. */
  lemma {:induction false} WithPricePrefix(s: seq<Bubble>, k: nat, price: real)
    requires k <= |s|
    ensures WithPrice(s[..k], price) <= WithPrice(s, price)
    decreases k
  {
    if k > 0 {
      assert s[..k][1..] == s[1..][..k - 1];
      WithPricePrefix(s[1..], k - 1, price);
    }
  }

  /**
   * Ties at the cut are settled by the reply's order: of the areas priced
   * `price`, the chart keeps the first ones in the order the route returned
   * them, and shows them in that order.
   */
  lemma TopKeepsTieOrder(items: seq<Bubble>, price: real)
    ensures WithPrice(TopByPrice(items), price) <= WithPrice(items, price)
  {
    var sorted := SortByPrice(items);
    var top := TopByPrice(items);
    assert top == sorted[..|top|];
    WithPricePrefix(sorted, |top|, price);
    SortKeepsTies(items, price);
  }

  /** `chartData`: nothing without data; otherwise the top entries' areas and two aligned series. */
  function ChartData(areaData: Option<AreaPayload>): (chart: Option<PriceChart>)
    ensures chart.None? <==> areaData.None? || areaData.value.data.None? || areaData.value.data.value == []
    ensures chart.Some? ==> chart.value == ChartOf(TopByPrice(areaData.value.data.value))
  {
    if areaData.None? || areaData.value.data.None? || areaData.value.data.value == [] then None
    else Some(ChartOf(TopByPrice(areaData.value.data.value)))
  }

  /** The chart's price bars never rise from left to right, and there are at most twenty of them. */
  lemma PricesNonIncreasing(areaData: Option<AreaPayload>)
    requires ChartData(areaData).Some?
    ensures var c := ChartData(areaData).value;
            |c.labels| <= TopCount &&
            forall i, j :: 0 <= i < j < |c.labels| ==> c.datasets[0].data[i] >= c.datasets[0].data[j]
  {
  }

  /** Every bar comes from the route's reply: each charted area is one of the areas the route returned. */
  lemma ChartedAreasFromRoute(rows: seq<AreaRow>)
    requires rows != []
    ensures var reply := AreaPricePopularity(rows);
            var c := ChartData(Some(AreaPayload(Some(reply.data)))).value;
            forall i :: 0 <= i < |c.labels| ==> c.labels[i] in reply.areas
  {
    var reply := AreaPricePopularity(rows);
    var top := TopByPrice(reply.data);
    forall i | 0 <= i < |top| ensures top[i].area in reply.areas {
      assert top[i] in multiset(top);
      var k :| 0 <= k < |reply.data| && reply.data[k] == top[i];
    }
  }
}
