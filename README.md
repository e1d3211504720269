# Urban heat exposure dashboard — the data pipeline in Dafny

The dashboard reads daily temperature readings for a set of cities. It
cleans them and adds three derived columns: the calendar month, a season
label and a per-city "Heat Exposure Index". From that table it computes what
the page shows:

- the rows for the city and period picked in the sidebar;
- the mean temperature of every city;
- the global average, which is the unweighted mean of the city means;
- the hottest and the coolest city;
- a red or blue map marker per city;
- the per-season sums of the selected view;
- a ranking of the cities by mean temperature.

This project models that pipeline. It does not model the Streamlit,
matplotlib or folium code around it. Temperatures are exact `real`
numbers, so the means and the index are exact. Dates arrive already
parsed into `(year, month, day)`.

Modules, in pipeline order:

- `Stats`: exact `Sum` and `Mean`, plus bounds on a mean.
- `Records`: `Date`, `Observation` (a cleaned row), and the per-city readings and mean that `groupby("Area")` produces.
- `Loader`: `load_data`. Sentinel readings (≤ −900) are overwritten in place with "missing" (`MaskSentinels`). Then the rows without a reading are dropped (`DropMissingRows`). `Clean` is the reference definition both steps are proved against.
- `Features`: the `Month`, `Season` and `Heat_Exposure_Index` columns. `DeriveFeatures` fills an array of enriched rows. `Enrich` is its specification.
- `CityOrder`: Python's string order and the sorted list of distinct cities. These give the group order of `groupby("Area")` and the choices of the city select box.
- `ViewFilter`: the boolean-mask filter by city and then by season.
- `Aggregates`: `avg_temp`, `global_avg`, `idxmax`/`idxmin`, the marker colour rule and the seasonal sums.
- `Ranking`: an in-place sort by mean, hottest first, then `index += 1`.
- `Dashboard`: the script's data flow from loading to ranking. It also holds a worked example with two Mumbai days, one Dubai day and one Dubai sentinel reading.

Behaviour of the code worth stating:

- The filtered view keeps table order. The code never sorts by date.
- An unknown city gives an empty view, not an error.
- The ranking sort is not stable, so the model claims nothing about the order of tied cities.
- Ties for hottest or coolest go to the first row of `avg_temp`. That is the tied city that comes first in Python string order (code-point order, so "Zurich" comes before "amsterdam").
- On an empty cleaned table `idxmax` raises; `Dashboard.Run` returns `NoRows` there.
- The pie chart of the seasonal sums (app.py:228-235) raises on a negative sum, which stops the script before the ranking tab; `Dashboard.Run` then has no ranking.
- The period filter compares the `Season` text with the period text, as the code does.

## Model

| member | source | states |
|---|---|---|
| Loader.Clean | app.py:50-51 | every retained row has a temperature above −900, and no rows are added |
| Loader.MaskSentinels | app.py:50 | the table afterwards is the old table with every reading ≤ −900 replaced by a missing value, and with every other cell unchanged |
| Loader.DropMissingRows | app.py:51 | returns the rows that have a reading, in table order |
| Loader.MaskThenDropIsClean | app.py:50-51 | masking the sentinels and then dropping missing readings gives exactly the surviving rows of the input |
| Loader.LoadData | app.py:44-51 | masks the table in place and returns exactly `Clean` of the original rows |
| Loader.CleanMembers | app.py:50-51 | an observation is in the cleaned table if and only if it comes from an input row that has a reading above −900 |
| Loader.CleanAppend | app.py:51 | cleaning distributes over concatenation, so the input order is kept |
| Loader.DroppedRowLeavesNoTrace | app.py:50-51 | a row with a missing or sentinel reading contributes nothing to the cleaned table |
| Features.SeasonOf | app.py:68-72 | months 6–8 give Summer, months 12, 1 and 2 give Winter, and every other month gives Transition; each case holds in both directions |
| Features.SeasonPartitionsMonths | app.py:68-72 | each calendar month belongs to the month table of exactly one season, the one SeasonOf gives |
| Features.SeasonNamesDistinct | app.py:69-71 | two season labels are written as the same text exactly when they are the same label |
| Records.CityMean | app.py:120 | the city has readings, and the mean times their number is their total |
| Features.Enrich | app.py:67-77 | one enriched row per cleaned row, in order; each keeps its area, date and temperature and takes its month from the date and its season from the month |
| Features.EnrichAt | app.py:67-77 | each enriched row keeps area, date and temperature, takes its month from the date and its season from the month, and has as index its temperature minus its city's mean over the whole cleaned table |
| Features.DeriveFeatures | app.py:67-77 | fills a fresh array whose contents are exactly the enriched table |
| Features.HeatIndexSumsToZero | app.py:74-77 | for every city, the index values sum to 0 and their mean is 0, and there is one index value per reading of the city |
| Features.SingleReadingHasIndexZero | app.py:74-77 | a city with a single reading has index 0 on that reading |
| CityOrder.SortedAreas | app.py:98 | the distinct cities of the table, strictly ascending in string order; a name is in the list exactly when it occurs in the table |
| ViewFilter.FilterMembers | app.py:111-113 | a row is in the view exactly when it is in the table, has the selected city, and the period is "Full Year" or equals the row's season text |
| ViewFilter.FilterAppend | app.py:111-113 | the view of a concatenation is the concatenation of the views, so the view is an order-preserving subsequence of the table |
| ViewFilter.FilterSingle | app.py:111-113 | a one-row table keeps its row exactly when the row is in the view |
| ViewFilter.SeasonViewMembers | app.py:112-113 | choosing a season as the period keeps exactly the rows of that city in that season |
| ViewFilter.Filter | app.py:111-113 | the view is no longer than the table, and each of its rows is a row of the table that has the selected city and, unless the period is "Full Year", the selected season text |
| ViewFilter.UnknownCityGivesEmptyView | app.py:111-113 | the view is empty exactly when no row of the table is in it; a city that has no rows gives an empty view |
| ViewFilter.OfferedCityHasRows | app.py:96-99 | every city offered by the select box has a non-empty full-year view |
| ViewFilter.ViewIndexUsesWholeTable | app.py:74-77 | an index shown in a view is the reading minus the city's mean over the whole cleaned table, not over the view |
| Aggregates.AvgTemp | app.py:120 | the rows of `avg_temp` are strictly ascending by city name; a city has a row exactly when it occurs in the table; each row's mean is that city's mean over the whole cleaned table |
| Aggregates.AvgTempOneRowPerCity | app.py:120 | no city has two rows in `avg_temp`, and a non-empty table gives a non-empty `avg_temp` |
| Aggregates.IdxMax | app.py:124 | the chosen row holds the largest mean, and every earlier row has a strictly smaller mean, so it is the first maximum |
| Aggregates.IdxMin | app.py:125 | the chosen row holds the smallest mean, and every earlier row has a strictly larger mean, so it is the first minimum |
| Aggregates.TiesGoToFirstName | app.py:120-125 | among cities tied for hottest or for coolest, the metric names the one that comes first in Python string order |
| Aggregates.GlobalAvg | app.py:121 | the unweighted mean of the `avg_temp` means: it times the number of cities is their total, and it lies between the smallest and the largest city mean (GlobalAvgBetweenExtremes adds the strict bound) |
| Aggregates.Hottest | app.py:124 | names a city of `avg_temp` whose mean no other city exceeds |
| Aggregates.Coolest | app.py:125 | names a city of `avg_temp` whose mean no other city falls below |
| Aggregates.GlobalAvgBetweenExtremes | app.py:121-125 | the global average lies between the coolest and the hottest city mean, strictly between them when those two differ |
| Aggregates.MarkerColour | app.py:169-170 | the marker is red exactly when the city mean exceeds the global average, and blue exactly when it does not |
| Aggregates.MarkerColours | app.py:168-170 | one colour per row of `avg_temp`, in row order; a row is red exactly when its mean exceeds the global average and blue otherwise |
| Aggregates.ExtremeMarkers | app.py:121-170 | the coolest city's marker is always blue; the hottest city's marker is red exactly when the city means are not all equal |
| Aggregates.SeasonalSums | app.py:228 | there is one group per season that occurs in the view |
| Aggregates.SeasonalSumsAddUp | app.py:228 | each group's sum is the total of the view's readings in that season, and the seasonal sums together equal the total of the view |
| Ranking.SortByMeanDescending | app.py:243-244 | the array afterwards is a permutation of the old one, sorted non-increasing by mean |
| Ranking.IncrementPositions | app.py:246 | every index value increases by one |
| Ranking.Rank | app.py:243-246 | the ranking has every row of `avg_temp` exactly as often as it occurs there, sorted non-increasing by mean, with positions 1..n from the top |
| Dashboard.Run | app.py:44-246 | the input rows afterwards have every sentinel reading masked; the enriched table is `Enrich(Clean(rows))`; an empty cleaned table gives `NoRows`; otherwise the page has the view, `avg_temp`, the global average, the hottest and coolest city, the red and blue marker colours and the seasonal sums, each as specified above, and it has a ranking, sorted and numbered as specified above, exactly when no seasonal sum is negative, since `ax.pie` raises on a negative wedge |
| Dashboard.ExampleCleaning | app.py:50-51 | in the example, the −999 reading is dropped and the other three rows are kept in order |
| Dashboard.ExampleCityMeans | app.py:120 | in the example, Mumbai's mean is 25 and Dubai's is 40 |
| Dashboard.ExampleAvgTemp | app.py:120 | in the example, `avg_temp` is Dubai 40 followed by Mumbai 25 |
| Dashboard.ExampleMetrics | app.py:121-126 | in the example, the global average is 32.5, the hottest city is Dubai and the coolest is Mumbai |
| Dashboard.ExampleIndex | app.py:74-77 | in the example, Mumbai's June index is +7, its January index is −7, and Dubai's single reading has index 0 |

## Left out

- Reading the CSV file and parsing `Date` (app.py:46-49): this is file I/O and a library parser. Rows arrive as parsed records, and an empty or NA `Temperature_C` cell is `None`. Non-finite readings are not modelled.
- Missing `Area` or `Date` cells (app.py:51, 67-72, 98): every `Area` and `Date` cell is taken to be present and parsed, because `dropna` only looks at `Temperature_C`. In the code, a row with an empty `Area` survives cleaning and makes `sorted(df["Area"].unique())` raise, since it compares a float with a string. A row with an unparsed `Date` gets a NaN `Month`, and the season lambda labels it "Transition"; `MonthNum` cannot hold such a month.
- `@st.cache_data` (app.py:44): framework memoisation that does not change any value.
- The location table `df_locations` and the `merge` with it (app.py:58-62, 166): this is a constant lookup used only to place markers. `Aggregates.MarkerColours` colours every row of `avg_temp`. That is the same as the merge when every city has a location.
- Presentation: page setup, CSS, sidebar widgets, the metric widgets and their `:.2f` formatting, tabs, the trend plots (including their per-city loop), the boxplot, the histogram, the pie drawing, the folium map, the HeatMap, the popup HTML and the CSV download button. None of this changes a value the pipeline computes, except the pie drawing: it can stop the script, as described for `Dashboard.Run`.
- The `show_index` switch between `Temperature_C` and `Heat_Exposure_Index` (app.py:106, 115): it only chooses which column a chart plots.
- Floating-point rounding: all arithmetic is exact over `real`.
- The global average of an empty table, which pandas gives as NaN: `Aggregates.GlobalAvg` requires a non-empty `avg_temp`, and `Dashboard.Run` returns `NoRows` for an empty table, because `idxmax` raises there anyway.
- Dashboard.Run: it models the pie's refusal of a negative wedge, but not what `ax.pie` does with an empty view or with sums that are all zero. That depends on the matplotlib version, so the model shows the ranking in those cases.
