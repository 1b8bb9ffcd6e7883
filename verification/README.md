# Dubai real-estate dashboard: chart data reshaping

The dashboard is an Express server and a React client over a table of
Dubai real-estate transactions. Each server route runs one SQL aggregate
and turns the rows into the JSON that one chart consumes. Each client
component fetches that JSON, may filter or sort it, and builds the
Chart.js `chartData` object. This project models the reshaping steps in
between. SQL results come in as sequences of row records. The chart
objects go out as datatypes.

It covers:

- **Pivot routes.** The property-type distribution route builds a dense
  area × property-type count matrix. Areas are sorted alphabetically, and
  there is one stacked-bar dataset per property type. The top-areas route
  builds the same matrix over a fixed ranking of areas. Both key a missing
  name as `'Unknown'`. A later row with the same key overwrites an earlier
  one. A cell with no row is 0. Dataset `k` takes palette colour `k mod 10`,
  and its border is that colour with `0.8` replaced by `1`.
- **Projection routes.** Market volume, room types, property usage, area
  price/popularity and price trends map each row to a label and a value.
  Price trends builds `"Mmm YYYY"` labels and divides prices by the
  3.67 AED/USD rate.
- **MarketVolume component.** It drops the incomplete current year. It
  applies the year-range filter (`all`, `last10/20/30`, `since2000/2010`).
  It then picks the filtered or the fetched data for the chart.
- **AreaPricePopularity component.** It sorts the areas by average price,
  highest first, and keeps the top 20 as two aligned bar datasets.
- **RoomTypes and PropertyUsageDistribution components.** `generateColors`
  cycles the 10-colour palette. The chart gives each bar its own colour and
  the matching opaque border.

Module layout:

- `StringOrder`: the JS default string order, insertion sort, and
  uniqueness of the sorted order.
- `Decimal`: `toString` and `parseInt` on integers.
- `Text`: `|| 'Unknown'` and `String.replace` with a string pattern.
- `Palette`: the shared colours and `generateColors`.
- `PivotTable`: the accumulation shared by both pivot routes.
- One module per route and per component.

Two behaviours of the code worth knowing:

- RoomTypes and PropertyUsageDistribution build no chart only before data
  arrives. An empty reply gives an empty chart.
- The property-usage route keeps its `'Unknown'` fallback although its
  query already excludes null and empty usages.

## Model

| member | source | states |
|---|---|---|
| StringOrder.Sort | server/routes/propertyTypeDistribution.js:46 | sorting distinct names gives a strictly ascending sequence of the same names and the same length |
| StringOrder.AscendingUnique | server/routes/propertyTypeDistribution.js:43-46 | two strictly ascending sequences with the same elements are equal, so a sorted list depends only on its set |
| Text.OrUnknown | server/routes/propertyTypeDistribution.js:31-32 | the key is never empty: a present non-empty name is kept, a missing or empty one becomes 'Unknown' |
| Text.ReplaceFirst | server/routes/propertyTypeDistribution.js:75 | `replace` with a string pattern leaves the string unchanged, or gives one of length `|s| - |pat| + |rep|`, and it changes only a string that contains the pattern (where the replacement lands is stated by Text.ReplaceFirstAt) |
| Text.ReplaceFirstAt | server/routes/propertyTypeDistribution.js:75 | `replace('0.8', '1')` splices the replacement in at the first occurrence only |
| Palette.ColorAt | server/routes/propertyTypeDistribution.js:64 | `colors[index % colors.length]` is always one of the ten palette colours |
| Palette.BorderOf | server/routes/propertyTypeDistribution.js:75 | a border is its fill colour unchanged, or two characters shorter, and only a fill containing "0.8" changes (the splice of "1" for the alpha is stated by Palette.BorderOfRgba) |
| Palette.BorderOfRgba | server/routes/propertyTypeDistribution.js:75 | for an rgba string ending in an alpha of 0.8 with no earlier '.', the border is the same colour with alpha 1 |
| Palette.BorderOfPalette | client/src/components/RoomTypes.js:158 | every palette colour ends in '0.8)', and its border replaces exactly that suffix by '1)' |
| Palette.Cycle | client/src/components/RoomTypes.js:43-47 | the colour list has `count` entries, or none when count is negative |
| Palette.CycleAt | client/src/components/RoomTypes.js:44-46 | entry i of the colour list is palette colour i mod 10 |
| Palette.CyclePeriodic | client/src/components/PropertyUsageDistribution.js:41 | colours repeat with period 10 |
| Palette.CycleInPalette | client/src/components/PropertyUsageDistribution.js:24-44 | every generated colour is a palette colour |
| Palette.GenerateColors | client/src/components/RoomTypes.js:28-48 | the loop returns exactly `count` colours, entry i being palette colour i mod 10 (the identical function in PropertyUsageDistribution.js:24-44 is the same model) |
| PivotTable.AreaOrderSpec | server/routes/propertyTypeDistribution.js:35-37 | the areas in the map's insertion order are distinct and are exactly the rows' area keys |
| PivotTable.TypeOrderSpec | server/routes/propertyTypeDistribution.js:39-43 | the property-type set holds each type key once, exactly the rows' type keys |
| PivotTable.TableKeys | server/routes/propertyTypeDistribution.js:30-40 | the map has an entry for exactly the area keys of the rows |
| PivotTable.TableLookup | server/routes/propertyTypeDistribution.js:38 | an (area, type) cell is present exactly when some row has that key, and holds the count of the last such row |
| PivotTable.Accumulate | server/routes/propertyTypeDistribution.js:27-40 | the forEach loop builds the map, the area insertion order and the property-type set of the whole row sequence |
| PivotTable.Cell | server/routes/propertyTypeDistribution.js:68 | a recorded count is returned as is, and a missing one reads as 0 (a non-zero cell is always recorded) |
| PivotTable.LastCountOfAbsentArea | server/routes/topAreasPropertyTypeDistribution.js:97-99 | an area no row names has no recorded count for any property type |
| PivotTable.CellOfTable | server/routes/propertyTypeDistribution.js:67-69 | the looked-up cell, defaulting to 0, is the last count for the key, or 0 when no row has it |
| PivotTable.Datasets | server/routes/propertyTypeDistribution.js:49-78 | one dataset per property type, named by it and in the given order, holding one cell per label; dataset k has palette colour k mod 10, its border, and width 1 (the same builder as topAreasPropertyTypeDistribution.js:79-108) |
| PropertyTypeDistribution.GetPropertyTypeDistribution | server/routes/propertyTypeDistribution.js:18-85 | the route returns the sorted-areas × sorted-types distribution of its rows |
| PropertyTypeDistribution.EmptyExactlyWithoutRows | server/routes/propertyTypeDistribution.js:18-23 | labels, and likewise datasets, are empty exactly when there are no rows |
| PropertyTypeDistribution.LabelsAreSortedAreas | server/routes/propertyTypeDistribution.js:46 | the labels are the distinct area keys, each once, strictly ascending |
| PropertyTypeDistribution.OneDatasetPerType | server/routes/propertyTypeDistribution.js:43-49 | one dataset per distinct property type, named by it, in strictly ascending order |
| PropertyTypeDistribution.IndependentOfRowOrder | server/routes/propertyTypeDistribution.js:43-46 | rows with the same areas and types give the same labels and dataset names, whatever the row order |
| PropertyTypeDistribution.DenseCells | server/routes/propertyTypeDistribution.js:64-77 | each dataset has one value per label (the last count for that cell, or 0), palette colour k mod 10, its border, and width 1 |
| TopAreasPropertyTypeDistribution.WithAreasSpec | server/routes/topAreasPropertyTypeDistribution.js:66-70 | every ranked area gains an entry; a missing one gets an empty entry, and existing entries are unchanged |
| TopAreasPropertyTypeDistribution.EnsureAreas | server/routes/topAreasPropertyTypeDistribution.js:66-70 | the loop gives the map an entry for every ranked area |
| TopAreasPropertyTypeDistribution.GetTopAreasPropertyTypeDistribution | server/routes/topAreasPropertyTypeDistribution.js:18-116 | the route returns the ranking-ordered distribution, with both early returns |
| TopAreasPropertyTypeDistribution.LabelsFollowRanking | server/routes/topAreasPropertyTypeDistribution.js:18-46 | labels and topAreas are the ranking itself, in ranking order; no ranking or no rows means no datasets |
| TopAreasPropertyTypeDistribution.OneDatasetPerType | server/routes/topAreasPropertyTypeDistribution.js:73-79 | with a ranking and rows, there is one dataset per distinct property type, strictly ascending |
| TopAreasPropertyTypeDistribution.CellOfRankedArea | server/routes/topAreasPropertyTypeDistribution.js:97-99 | a ranked area's cell is the last count for the key, or 0; a ranked area no row names still has an entry, and all its cells are 0 |
| TopAreasPropertyTypeDistribution.DenseCells | server/routes/topAreasPropertyTypeDistribution.js:79-108 | each dataset has one value per ranked area (last count or 0), palette colour k mod 10, its border, and width 1 |
| Decimal.NatToString | server/routes/marketVolume.js:21 | the decimal text of a natural number is non-empty, all digits, and has no leading zero: it starts with '0' exactly for 0, and is then the single character "0" |
| Decimal.IntToString | server/routes/marketVolume.js:21 | `toString` of an integer is non-empty, starts with '-' exactly for a negative number, and is otherwise all digits |
| Decimal.ParseInt | client/src/components/MarketVolume.js:113 | `parseInt` gives NaN exactly when no digit follows the optional sign; a leading '-' gives a non-positive result; a string of digits gives the number it denotes |
| Decimal.DigitRun | client/src/components/MarketVolume.js:113 | `parseInt` reads the longest run of digits, stopping at the first non-digit |
| Decimal.NatToStringDigits | server/routes/marketVolume.js:21 | the decimal text of a natural number is non-empty, all digits, and denotes that number |
| Decimal.ParseIntOfIntToString | client/src/components/MarketVolume.js:113 | `parseInt(year.toString())` gives back the year |
| SeriesData.Project | server/routes/marketVolume.js:21-22 | mapping rows gives aligned labels and data, one entry per row |
| MarketVolumeRoute.MarketVolume | server/routes/marketVolume.js:16-29 | one label (the year's decimal text) and one count per row, in row order; no rows gives empty arrays |
| MarketVolumeRoute.LabelsParseToYears | server/routes/marketVolume.js:21 | every label parses back to its row's year |
| MarketVolumeRoute.RoundTrip | server/routes/marketVolume.js:16-29 | reading the reply back recovers the rows exactly |
| RoomTypesRoute.RoomTypes | server/routes/roomTypes.js:18-34 | one non-empty label (the room type, or 'Unknown') and one count per row, in row order |
| PropertyUsageRoute.PropertyUsageDistribution | server/routes/propertyUsageDistribution.js:16-29 | one non-empty label (the usage, or 'Unknown') and one total per row, in row order |
| PropertyUsageRoute.LabelsAreUsages | server/routes/propertyUsageDistribution.js:11-21 | when the query has filtered out null and empty usages, the labels are the usages themselves |
| AreaPricePopularityRoute.AreaPricePopularity | server/routes/areaPricePopularity.js:20-44 | one area name (or 'Unknown') and one bubble per row, the bubble carrying the same name, x = avgPrice = average price, y = totalListings = listing count |
| PriceTrendsRoute.PriceTrends | server/routes/priceTrends.js:40-73 | the period is echoed; 'monthly' gives "Mmm YYYY" labels, any other period the year's text; each value times 3.67 is the average price |
| PriceTrendsRoute.MonthNamesDistinct | server/routes/priceTrends.js:56-57 | the twelve month abbreviations are pairwise distinct |
| PriceTrendsRoute.MonthLabel | server/routes/priceTrends.js:55-59 | a monthly label of a month in 1..12 reads back to that month and year; any other month gives "undefined " followed by the year |
| PriceTrendsRoute.LabelsReadBack | server/routes/priceTrends.js:53-65 | monthly labels read back to their (month, year); yearly labels parse back to the year |
| PriceTrendsRoute.MarchLabel | server/routes/priceTrends.js:58 | month 3 of 2021 is labelled "Mar 2021" |
| MarketVolumeView.KeptIndices | client/src/components/MarketVolume.js:112-118 | the kept positions are strictly increasing and inside the input |
| MarketVolumeView.KeptIndicesExact | client/src/components/MarketVolume.js:177-184 | a position is kept exactly when its label parses to a year inside the window |
| MarketVolumeView.SelectYears | client/src/components/MarketVolume.js:174-189 | the loop pushes exactly the in-window labels with their values |
| MarketVolumeView.SelectExact | client/src/components/MarketVolume.js:177-189 | the selection is the input at the kept positions, in order, labels and values aligned, each inside the window |
| MarketVolumeView.CleanKeepsCompleteYears | client/src/components/MarketVolume.js:106-124 | the clean-up keeps exactly the entries whose year is before the current one; a missing field leaves empty arrays |
| MarketVolumeView.CleanIncompleteYears | client/src/components/MarketVolume.js:106-124 | the fetch's clean-up computes that selection |
| MarketVolumeView.StartYear | client/src/components/MarketVolume.js:149-172 | last10/20/30 windows hold exactly 10/20/30 complete years; since2000/2010 start there; 'all' and any other filter set no start |
| MarketVolumeView.ApplyFilter | client/src/components/MarketVolume.js:138-190 | applyFilter stores nothing for no or empty data, the data for 'all' or an unknown filter, otherwise the window's selection |
| MarketVolumeView.FilterPassThrough | client/src/components/MarketVolume.js:139-171 | missing or label-less data gives no filtered data; 'all' and unknown filters hand the data back unchanged |
| MarketVolumeView.FilterWindow | client/src/components/MarketVolume.js:174-189 | a named filter keeps exactly the entries from the start year to the last complete year |
| MarketVolumeView.ChartData | client/src/components/MarketVolume.js:203-218 | the chart shows the filtered data if present, else the fetched data, and is absent only if both are |
| MarketVolumeView.CleanedBeforeCurrentYear | client/src/components/MarketVolume.js:111-118 | after the clean-up, labels and values stay aligned and every label is a year before the current one |
| MarketVolumeView.FilteredBeforeCurrentYear | client/src/components/MarketVolume.js:138-189 | filtering only drops entries, so a label before the current year stays so |
| MarketVolumeView.NoIncompleteYearShown | client/src/components/MarketVolume.js:106-218 | after a fetch, under any filter, every charted label is a year before the current one |
| AreaPricePopularityView.InsertByPrice | client/src/components/AreaPricePopularity.js:145-146 | inserting into a price-descending list keeps it descending and adds exactly that element |
| AreaPricePopularityView.SortByPrice | client/src/components/AreaPricePopularity.js:145-146 | the sort by `b.avgPrice - a.avgPrice` gives a price-descending permutation |
| AreaPricePopularityView.InsertKeepsTies | client/src/components/AreaPricePopularity.js:145-146 | an inserted area goes before the areas of its own price, and no other area of that price moves |
| AreaPricePopularityView.SortKeepsTies | client/src/components/AreaPricePopularity.js:145-146 | the sort is stable: areas of equal price keep the order of the reply |
| AreaPricePopularityView.WithPricePrefix | client/src/components/AreaPricePopularity.js:147 | a cut keeps, for each price, a prefix of the areas of that price |
| AreaPricePopularityView.PrefixDominates | client/src/components/AreaPricePopularity.js:145-147 | in a descending list, every element of a prefix is priced at least as high as every element after it |
| AreaPricePopularityView.TopByPrice | client/src/components/AreaPricePopularity.js:145-147 | min(20, n) areas, descending by price, drawn from the input, none priced below an area left out |
| AreaPricePopularityView.TopKeepsTieOrder | client/src/components/AreaPricePopularity.js:145-147 | among areas of equal price, the chart keeps the first ones in the reply's order, in that order |
| AreaPricePopularityView.ChartOf | client/src/components/AreaPricePopularity.js:149-171 | labels, average prices and listing counts are aligned per area in the given order, under the datasets "Average Price" then "Total Listings" |
| AreaPricePopularityView.ChartData | client/src/components/AreaPricePopularity.js:141-172 | no chart exactly when data is missing or empty; otherwise the chart of the top areas by price |
| AreaPricePopularityView.PricesNonIncreasing | client/src/components/AreaPricePopularity.js:149-158 | the charted average prices never increase from left to right |
| AreaPricePopularityView.ChartedAreasFromRoute | client/src/components/AreaPricePopularity.js:145-149 | every charted area is one the route returned |
| ColoredBarChart.ChartData | client/src/components/RoomTypes.js:148-163 | no chart exactly when nothing was fetched; one 'Number of Properties' dataset with the data, bar i coloured with palette colour i mod 10, its border, and width 2 |
| ColoredBarChart.BordersAreOpaqueFills | client/src/components/PropertyUsageDistribution.js:121-136 | each bar's border is its fill with the 0.8 alpha replaced by 1 |

## Left out

- SQL queries, the database connection, the HTTP layer, `fetch`, React
  state, effects and rendering, and console logging. The rows a query
  returns are the inputs of the route functions.
- The clock. `new Date().getFullYear()` is the `currentYear` parameter.
- Floating point. `parseFloat`, the AVG/ROUND results and the division by
  3.67 are modelled on `real`. PriceTrendsRoute.PriceTrends states its
  value as `value * 3.67 == avgPrice`, with exact arithmetic.
- `parseInt` on counts. Counts arrive as natural numbers, so the NaN that
  `parseInt` gives for a non-numeric count, and its `|| 0`, are not
  modelled. `parseInt` on year labels is modelled for an optional sign
  followed by decimal digits. Leading whitespace and radix prefixes are
  not modelled.
- Plain-object key quirks. The model treats every name as an ordinary
  key. In the source, an area or property type named like an
  `Object.prototype` member (`'constructor'`, `'toString'`, `'__proto__'`)
  misbehaves in two places:
  - an area of that name breaks the `!areaDataMap[area]` test
    (propertyTypeDistribution.js:35, topAreasPropertyTypeDistribution.js:58);
  - for an area without such a property type, the cell lookup
    `areaDataMap[area][propertyType] || 0` gives the inherited function
    instead of 0 (propertyTypeDistribution.js:68,
    topAreasPropertyTypeDistribution.js:98).
- AreaPricePopularityRoute.AreaPricePopularity: the bubble radius `r`
  (the square root of the listing count, times 2) is not modelled. It
  needs a floating-point square root.
- AreaPricePopularityView.TopByPrice: its own contract does not state the
  order among areas with equal prices. The source's sort is stable, and
  the lemmas AreaPricePopularityView.SortKeepsTies and
  AreaPricePopularityView.TopKeepsTieOrder prove the same of the model.
- String order: names are compared by Unicode scalar value. JavaScript's
  default `sort` compares UTF-16 code units, which differ only for
  characters outside the Basic Multilingual Plane against those from
  U+E000 to U+FFFF.
- MarketVolumeView.CleanIncompleteYears: requires `labels` and `data` to
  have equal length when both are present. The source would read past the
  end of a shorter `data` and push `undefined`.
- MarketVolumeView.ApplyFilter: requires equal-length labels and data, for
  the same reason.
- Chart options, tooltips, legend and axis callbacks, loading and error
  messages, and the filter dropdown's markup. These are presentation only.
- The other routes and components, and the server's entry point, are not
  part of this model. These include price by area, price by property type,
  and the client-side charts of the pivot routes.
