# F1 driver-performance analysis: the table core in Dafny

`Visualizations1.py` loads a table of Formula 1 race results. Each row is one
driver in one race, with the race's average weather. The script then computes
the data behind its charts:

- the five drivers with the most season points (`get_top5_drivers`);
- min-max normalisation of the five weather columns (`normalizeWeather`), and
  the same formula applied to Position;
- a driver's positions and race names (`get_race_positions`);
- the weather of a race (`get_weatherConditions`) and the five weather lists
  aligned to a driver's races (`saveWeatherConditions`);
- the table sorted by race date (`prepare_data`);
- the split into rainy and dry races, with each listed driver's average
  position on each side (`categorize_weather`, `calculate_avg_position`, and
  the loop of `plot_rainy_vs_dry`).

This project models those computations and proves what they promise. The table
is a `seq<Row>` with exact `real` numbers. There is one module per concern:

- `Frame`: the row, mask selection (`df[df[col] == v]`) and `sort_values`;
- `Ranking`: the top five;
- `Normalization`: min-max normalisation. The in-place column loop is written
  over an `array<Row>`;
- `WeatherSeries`: the per-driver series, the weather lookup and the list
  building;
- `Timeline`: the date sort;
- `RainDry`: the rain/dry split and the averages;
- `Pipeline`: how these steps compose in the chart scripts.

`get_top5_drivers` is defined twice, at lines 12-21 and 183-186. The first
definition also renumbers the result's index. Both return the same names in
the same order, and `Ranking.Top5` models both.

`saveWeatherConditions` returns from inside its loop over the drivers, so only
the first listed driver's races are ever walked. The model keeps that
behaviour, and does not model the evident intent of one set of lists per
driver. An empty driver list runs no iteration, and the function then returns
nothing; the model returns `None`.

## Model

| member | source | states |
|---|---|---|
| Frame.Where | Visualizations1.py:36 | `df[mask]`: at most as many rows as the table; what it holds is stated by WhereMembers (membership) and WhereIsSubsequence (order) |
| Frame.DriverRows | Visualizations1.py:36 | `df[df['Driver Name'] == name]`: every selected row has that driver name; completeness and order as for Where |
| Frame.WhereMembers | Visualizations1.py:36 | a mask selection holds only rows of the table that the mask accepts, and every accepted row |
| Frame.WhereIsSubsequence | Visualizations1.py:36 | the selection is exactly the accepted rows in table order: its k-th row is the row at the k-th accepted index |
| Frame.WherePartition | Visualizations1.py:272-273 | two complementary masks split the table: the multisets of the two selections add up to the table's |
| Frame.WherePermutation | Visualizations1.py:230 | selecting from a reordering of a table gives a reordering of the selection |
| Frame.SortBy | Visualizations1.py:178 | `sort_values`: the result is non-decreasing by the key and a permutation of the input |
| Ranking.Top5 | Visualizations1.py:12-21 | `get_top5_drivers` (also lines 183-186): at most five names; the full top-five description is Top5Selection, Top5Ordered and Top5Dominates |
| Ranking.Drivers | Visualizations1.py:16 | the groupby keys: each driver name of the table exactly once, and nothing else |
| Ranking.RankedContents | Visualizations1.py:16-19 | the sorted grouped frame has one entry per driver, no repeats, and each entry carries that driver's summed Race Point |
| Ranking.Top5Selection | Visualizations1.py:12-21 | the result has min(5, number of drivers) names, all distinct, each a driver of the table |
| Ranking.Top5Ordered | Visualizations1.py:183-186 | the names come out by non-increasing total points |
| Ranking.Top5Dominates | Visualizations1.py:19-21 | no driver left out has a larger total than any driver kept |
| Ranking.Top5ReadsPointsOnly | Visualizations1.py:16 | the ranking depends only on the Driver Name and Race Point columns |
| Normalization.Rescale | Visualizations1.py:28 | the formula on one column: same length when defined; RescaleUndefined, RescaleRange, RescaleEndpoints and RescaleMonotone state what it computes |
| Normalization.NormalizeWeatherTable | Visualizations1.py:23-30 | `normalizeWeather` on a table: the same number of rows; NormalizeWeatherEffect and NormalizedWeatherColumn state the new contents |
| Normalization.Min | Visualizations1.py:28 | `.min()` is a value of the column and at most every value |
| Normalization.Max | Visualizations1.py:28 | `.max()` is a value of the column and at least every value |
| Normalization.RescaleUndefined | Visualizations1.py:28 | the formula is undefined (0/0) exactly for a non-empty constant column |
| Normalization.RescaleRange | Visualizations1.py:28 | every normalised value lies in [0, 1] |
| Normalization.RescaleEndpoints | Visualizations1.py:28 | the minimum becomes 0, the maximum becomes 1, and the normalised column has minimum 0 and maximum 1 |
| Normalization.RescaleMonotone | Visualizations1.py:28 | v <= w exactly when norm(v) <= norm(w) |
| Normalization.RescaleIdempotent | Visualizations1.py:28 | normalising a normalised column changes nothing |
| Normalization.NormalizeColumnsEffect | Visualizations1.py:27-28 | after the loop over distinct columns, the listed columns hold their normalised old values, and every other column and the row count are unchanged |
| Normalization.NormalizeWeatherEffect | Visualizations1.py:26-28 | `normalizeWeather` keeps the row count and every non-weather column, and each weather column's new values depend only on its own old values |
| Normalization.NormalizedWeatherColumn | Visualizations1.py:23-30 | for a non-constant weather column of the normalised table: values lie in [0, 1], min rows hold 0, max rows hold 1, order is kept both ways |
| Normalization.NormalizedPositions | Visualizations1.py:129 | the rescaled Position column is undefined exactly for a non-empty constant column; otherwise it has one value per row, in [0, 1], the lowest position becomes 0, the highest becomes 1, and the order of positions is kept both ways |
| Normalization.ColumnBounds | Visualizations1.py:28 | the scanning loop returns the column's minimum and maximum |
| Normalization.NormalizeColumnInPlace | Visualizations1.py:28 | one column is rewritten in place to its normalised values; the flag says whether the formula was defined |
| Normalization.NormalizeWeather | Visualizations1.py:23-30 | the array becomes the normalised table; the returned set is exactly the columns that were constant |
| WeatherSeries.RacePositions | Visualizations1.py:33-37 | `get_race_positions`: two parallel series of equal length, no longer than the table; RacePositionsSpec and RacePositionsEmpty state their entries |
| WeatherSeries.WeatherConditions | Visualizations1.py:40-46 | `get_weatherConditions`: missing exactly when no row has the race name; WeatherConditionsFirst states which row's weather it returns |
| WeatherSeries.RacePositionsSpec | Visualizations1.py:33-37 | both series have one entry per row of the driver; entry k is the Position and the Race Name of the driver's k-th row |
| WeatherSeries.RacePositionsEmpty | Visualizations1.py:36-37 | both series are empty exactly when the driver has no row |
| WeatherSeries.WeatherConditionsFirst | Visualizations1.py:40-46 | the lookup fails exactly when no row has the race name; otherwise it returns the weather of the first row that has it |
| WeatherSeries.WeatherConditionsAnyRow | Visualizations1.py:44-46 | where every row of a race has the same weather, the lookup returns the weather of any row of the race |
| WeatherSeries.WeatherConditionsReorder | Visualizations1.py:43-46 | under that assumption, reordering the rows does not change the lookup |
| WeatherSeries.SaveWeatherConditions | Visualizations1.py:48-68 | nothing is returned exactly when the driver list is empty; otherwise the five lists are aligned to the first driver's races, and entry i is the looked-up weather of race i |
| WeatherSeries.AlignedDriverWeather | Visualizations1.py:59-67 | under race-invariant weather, aligned lists have one entry per row of the driver, and entry i is the weather of the driver's i-th row |
| Timeline.PrepareData | Visualizations1.py:173-180 | `prepare_data` returns the same rows (as a multiset), in non-decreasing race date order |
| RainDry.CategorizeWeather | Visualizations1.py:271-274 | `categorize_weather`: the two sides together have as many rows as the table; CategorizePartition states the partition |
| RainDry.AveragePosition | Visualizations1.py:277-278 | `calculate_avg_position`: missing exactly when the driver has no row; AveragePositionBounds places it between the driver's positions |
| RainDry.CategorizePartition | Visualizations1.py:271-274 | the rainy side holds only rainy rows and the dry side only dry rows; together they hold every row exactly once; each side keeps table order |
| RainDry.MeanBetween | Visualizations1.py:278 | the mean position of non-empty rows lies between their lowest and highest position |
| RainDry.AveragePositionBounds | Visualizations1.py:277-278 | the average is missing exactly when the driver has no row; otherwise some row of the driver is at or below it and some at or above it |
| RainDry.RainyVsDry | Visualizations1.py:283-291 | both lists have one entry per listed driver, in list order, each the driver's average on the rainy and on the dry side |
| Pipeline.NormalizationKeepsRanking | Visualizations1.py:96-101 | ranking the normalised table gives the same top five as ranking the raw table |
| Pipeline.NormalizationKeepsSeries | Visualizations1.py:110-111 | normalisation leaves every driver's positions and race names unchanged |
| Pipeline.NormalizationKeepsRaceInvariance | Visualizations1.py:126-127 | if every race's rows share one weather before normalisation, they still do after it |
| Pipeline.DriverRowsInDateOrder | Visualizations1.py:229-231 | a driver's rows selected from the date-sorted table are that driver's rows, earliest race first |

## Left out

- Plotting: every matplotlib call and the chart-building part of `plot_rainy_vs_dry`. It is presentation only.
- File I/O: `pd.read_csv` and the `to_csv` call inside `normalizeWeather` (line 29). The table is a parameter and the model does not persist it.
- Date parsing: `pd.to_datetime` (lines 175 and 265) is represented by the integer `raceDate`, so the in-place conversion of the Race Date column is not modelled.
- Script plumbing: the module-level calls and the debug prints.
- `datamining.py` is not part of this model. It is a downloader built on a foreign racing-data API and a CSV writer.
- IEEE floating point: arithmetic is exact `real`. NaN propagation is replaced by explicit undefined results (`None`, or the `undefined` set).
- Normalization.NormalizeWeather: a non-empty constant column, where the source writes NaN everywhere, is left with its old values and reported in the returned set.
- Normalization.NormalizeColumnInPlace: the same rule applies to one column, reported through the returned flag.
- Normalization.NormalizedPositions: line 129 overwrites the Position column in place with reals. The model returns the rescaled column as a separate sequence, because the row keeps integer positions.
- Ranking.Top5: the order among drivers with equal totals is left open, because the library's default sort is not stable. The groupby's alphabetical key order is therefore not modelled either.
- Timeline.PrepareData: the order among rows with the same race date is left open, for the same reason.
- WeatherSeries.WeatherConditions: the error `.iloc[0]` raises on a race with no rows is modelled as `None`.
- RainDry.AveragePosition: the NaN mean of a driver with no rows on a side is modelled as `None`.
- Pandas index labels of the returned series are not modelled. Results are plain sequences in row order.
