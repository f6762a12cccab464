# financetools in Dafny

A model of the logic in the financetools Streamlit dashboards, with proofs about it. The dashboards are:

- a nearest-bus-stop finder for Hong Kong;
- an MTR next-train page;
- three stock and index performance dashboards (CAGR, overall gain, annual returns, outperform/underperform) and a results summary that loads its symbols from a CSV file;
- two pages over Hong Kong government data: residential property prices and retail sales volume indices.

At the centre is `find_nearest_bus_stop`. It is a method with a loop (`BusStop.FindNearestBusStop`), proved against declarative functions:
- `FirstNearest` is the first row at the minimum distance;
- `TiedRoutes` and `Distinct` give the distinct routes tied at that distance;
- `Grouping` is the route-to-stops dictionary.

The page scripts around it are modelled as pure functions over rows, strings and maps, with these exceptions:
- A pandas frame that a script updates in place is a class: `Frames.Frame` and `Prices.PriceFrame`.
- The scripts' updates become methods that change its fields.

Modules:

| file | module | models |
|---|---|---|
| wrappers.dfy | `Wrappers` | `Option`, `Result` and the Python exceptions that can end a script |
| sequences.dfy | `Sequences` | list comprehensions and selections (`Filter`, `Somes`), `unique()` (`Distinct`), first and last positions, `sort_values` (`SortBy`) |
| text.dfy | `Text` | `str.strip`, `str.split`, `sub in s`, `endswith`, string order, digit strings |
| bus_stop.dfy | `BusStop` | nearest_bus_stop_to_me_streamlit_hardcode_directions_v2.py |
| next_train.dfy | `NextTrain` | next_mtr_v3_up_down_streamlit_v9_dropdowns.py |
| prices.dfy | `Prices` | the price arithmetic and `calculate_annual_returns` shared by the stock dashboards |
| equity_performance.dfy | `EquityPerformance` | finance_tool_cagr_outcome_streamlit.py |
| stock_dashboard.dfy | `StockDashboard` | ft_cagr_user_input.py and ft_cagr_select_index_file.py |
| volatility_dashboard.dfy | `VolatilityDashboard` | finance_tool_cagr_vol_sharpe_charts_streamlit_v3.py |
| frames.dfy | `Frames` | the pandas operations the government-data pages use: `dropna`, `pct_change(12)`, adding a column, `set_index` |
| property_prices.dfy | `PropertyPrices` | res_price_existing_dev_extract_year_month_all_v4_streamlit.py |
| retail_sales.dfy | `RetailSales` | api_hk_retail_sales_streamlit_v3.py |

Several things outside the scripts are parameters of the model:
- The haversine distance.
- `float()` on a string.
- `x ** y` in floating point.
- The volatility and Sharpe statistics.
- Every download: `yf.download`, `requests.get` and `requests.post`.
- The directory listing.
- The CSV reader.

## Model

| member | source | states |
|---|---|---|
| BusStop.FindNearestBusStop | nearest_bus_stop_to_me_streamlit_hardcode_directions_v2.py:14-46 | An empty file leaves `None` for stop, name, direction and position, infinity for the distance and no routes. Otherwise stop, name, direction, latitude and longitude all come from the first row at the minimum distance, the distance is that row's, and the routes are the distinct routes of the rows at exactly that distance, in first-appearance order. `route_stops` groups every row by route. |
| BusStop.FirstNearestIsNearest | nearest_bus_stop_to_me_streamlit_hardcode_directions_v2.py:34-42 | No row is nearer than the reported one, and every earlier row is strictly farther, so a later row at equal distance never replaces it. |
| BusStop.FirstNearestUnique | nearest_bus_stop_to_me_streamlit_hardcode_directions_v2.py:35 | Any row that is nearest and strictly nearer than all rows before it is the reported row. |
| BusStop.NearestStep | nearest_bus_stop_to_me_streamlit_hardcode_directions_v2.py:35-42 | One more row replaces the reported row exactly when it is strictly nearer. |
| BusStop.CloserReported | nearest_bus_stop_to_me_streamlit_hardcode_directions_v2.py:35-42 | A strictly nearer row becomes the report, and its route is the only tied route. |
| BusStop.NotCloserReported | nearest_bus_stop_to_me_streamlit_hardcode_directions_v2.py:43-44 | A row that is not strictly nearer leaves the report as it is. The one exception: its route is appended when the row is at the same distance and the route is not yet listed. |
| BusStop.TiedRoutesMembers | nearest_bus_stop_to_me_streamlit_hardcode_directions_v2.py:43 | A route is tied at distance `m` exactly when some row on that route lies at distance `m`. |
| BusStop.NearestRoutesExact | nearest_bus_stop_to_me_streamlit_hardcode_directions_v2.py:40-44 | `nearest_routes` holds a route exactly when some row on it lies at the minimum distance. |
| BusStop.NearestRoutesOrder | nearest_bus_stop_to_me_streamlit_hardcode_directions_v2.py:40-44 | The tied routes come in the order of their first tied row. |
| BusStop.AppendStop | nearest_bus_stop_to_me_streamlit_hardcode_directions_v2.py:31-33 | The route's list gets the stop appended, and is created first when the route is new. No other route changes. |
| BusStop.GroupingStep | nearest_bus_stop_to_me_streamlit_hardcode_directions_v2.py:31-33 | Reading one more row appends its `(stop, name_en, dir)` to its route's list only. |
| BusStop.GroupingKeys | nearest_bus_stop_to_me_streamlit_hardcode_directions_v2.py:31-33 | `route_stops` has a key exactly for each route that occurs, and each such list is non-empty. |
| BusStop.EntriesOfAppend | nearest_bus_stop_to_me_streamlit_hardcode_directions_v2.py:31-33 | A route's list for `a + b` is its list for `a` followed by its list for `b`, so the file order is kept. |
| BusStop.GroupingSize | nearest_bus_stop_to_me_streamlit_hardcode_directions_v2.py:31-33 | Taken once per route, the list lengths add up to the number of rows. |
| BusStop.EntriesOfFirst | nearest_bus_stop_to_me_streamlit_hardcode_directions_v2.py:86 | The first entry of a route's list is the entry of that route's first row in the file. |
| BusStop.EntriesOfLast | nearest_bus_stop_to_me_streamlit_hardcode_directions_v2.py:87 | The last entry of a route's list is the entry of that route's last row in the file. |
| BusStop.GroupingEndpoints | nearest_bus_stop_to_me_streamlit_hardcode_directions_v2.py:85-88 | For any route in the file, `route_stops[route][0]` and `[-1]` raise neither `KeyError` nor `IndexError`. They give the route's first and last row. |
| BusStop.TiedRoutesOccur | nearest_bus_stop_to_me_streamlit_hardcode_directions_v2.py:85-87 | Every reported route occurs in the file, so its endpoints can be read. |
| BusStop.ParseGpsOneComma | nearest_bus_stop_to_me_streamlit_hardcode_directions_v2.py:72-76 | Accepted coordinates contain exactly one comma. |
| BusStop.ParseGpsPair | nearest_bus_stop_to_me_streamlit_hardcode_directions_v2.py:72-76 | `a,b` with no comma in either part is accepted exactly when both parts convert with `float()`. Otherwise it is a `ValueError`. There is no range check. |
| BusStop.ShowPage | nearest_bus_stop_to_me_streamlit_hardcode_directions_v2.py:66-88 | Bad coordinates stop the page before any scan, and nothing is computed until the button is pressed. The report then shows the nearest stop's code, English name, direction, latitude, longitude and distance, plus one line per tied route with that route's first and last stop in file order. An empty file gives `None` for all five fields, infinity and no lines. |
| NextTrain.LineNamesInFirstAppearanceOrder | next_mtr_v3_up_down_streamlit_v9_dropdowns.py:19 | `line_names` lists every `Line_name` of the table once, in order of first appearance, and nothing else. |
| NextTrain.LineCodeOfListedName | next_mtr_v3_up_down_streamlit_v9_dropdowns.py:29 | For a name from the dropdown, the line code is the `Line` of the first row with that name. |
| NextTrain.LineCodeOfFirstRow | next_mtr_v3_up_down_streamlit_v9_dropdowns.py:29 | The lookup reads the first matching row. |
| NextTrain.LineCode | next_mtr_v3_up_down_streamlit_v9_dropdowns.py:29 | `.values[0]` succeeds exactly when some row has the name. Otherwise it is an `IndexError`. |
| NextTrain.FilterLineExact | next_mtr_v3_up_down_streamlit_v9_dropdowns.py:32 | `filtered_df` keeps exactly the rows with that line code. |
| NextTrain.FilterLineOrder | next_mtr_v3_up_down_streamlit_v9_dropdowns.py:32 | The selection of a table split in two is the selection of the first part followed by that of the second, so the rows keep their table order. |
| NextTrain.SortedByStationName | next_mtr_v3_up_down_streamlit_v9_dropdowns.py:35 | The rows are sorted by station name and are a permutation of the input. |
| NextTrain.StationLabelsExact | next_mtr_v3_up_down_streamlit_v9_dropdowns.py:35 | The station options are exactly the labels `"<name> - <code>"` of the line's rows, each once. |
| NextTrain.StationLabelsByName | next_mtr_v3_up_down_streamlit_v9_dropdowns.py:35 | The station options come in station-name order. |
| NextTrain.ParseLabelSound | next_mtr_v3_up_down_streamlit_v9_dropdowns.py:43 | When the two-way unpack succeeds, the two pieces joined with `' - '` give the label back, and neither piece contains `' - '`. |
| NextTrain.LabelRoundTrip | next_mtr_v3_up_down_streamlit_v9_dropdowns.py:35-43 | A label splits back into its station name and code when neither contains `' - '` and the name does not end in `" -"`. |
| NextTrain.LabelRoundTripOverlap | next_mtr_v3_up_down_streamlit_v9_dropdowns.py:35-43 | The name condition is needed: station `"x -"` with code `"y"` unpacks, without error, into `("x", "- y")`. |
| NextTrain.GetLatestJsonData | next_mtr_v3_up_down_streamlit_v9_dropdowns.py:5-10 | Any status other than 200 gives `None`. Status 200 gives the parsed body, or a `ValueError` when the body is not JSON. |
| NextTrain.NonOkReplyCrashes | next_mtr_v3_up_down_streamlit_v9_dropdowns.py:63 | As written, `get_latest_json_data` (lines 5-10) yields `None` for a reply other than 200, and the page then raises `TypeError` at `'error' in data`. |
| NextTrain.ScheduleViewGuarded | next_mtr_v3_up_down_streamlit_v9_dropdowns.py:50-66 | With the guard, a missing body shows "Invalid data received from API". It agrees with the code as written on every truthy body and wherever the code as written does not raise. |
| NextTrain.ScheduleShown | next_mtr_v3_up_down_streamlit_v9_dropdowns.py:50-62 | The entry is read under `"<line>-<station>"` inside `data`, and the UP and DOWN tables are shown exactly when the entry has them. |
| NextTrain.NoRequestUntilChosen | next_mtr_v3_up_down_streamlit_v9_dropdowns.py:24-47 | While the line dropdown shows 'Select...', only the line options are shown. While the station dropdown shows it, nothing is requested. With both chosen, the request goes to the URL for the line code and the station code. |
| NextTrain.PageRequest | next_mtr_v3_up_down_streamlit_v9_dropdowns.py:46-47 | Once a code and a station code are known, the page requests the schedule URL built from them. |
| NextTrain.FailedRequestOnPage | next_mtr_v3_up_down_streamlit_v9_dropdowns.py:47-66 | On a failed request the page as written ends in `TypeError`, while the guarded page shows "Invalid data received from API". |
| Prices.OverallGainSign | finance_tool_cagr_outcome_streamlit.py:71 | With a positive first price, the gain is positive, zero or negative exactly when the last price is above, equal to or below it. |
| Prices.OverallGainInverse | ft_cagr_select_index_file.py:57 | `(last - first) / first * 100`, applied back to the first price, gives the last price. |
| Prices.FirstValid | ft_cagr_user_input.py:97 | The `first` aggregate is the first value that is not NaN, and it is absent only when every value is NaN. |
| Prices.LastValid | ft_cagr_user_input.py:97 | The `last` aggregate is the last value that is not NaN, and it is absent only when every value is NaN. |
| Prices.ClosesInAppend | ft_cagr_user_input.py:97 | A year's prices for `a + b` are its prices for `a` followed by its prices for `b`, so the row order is kept. |
| Prices.RawAnnualReturnsExact | ft_cagr_user_input.py:89-109 | There is one entry per year that occurs. It is a number exactly when the year has a price and its first price is not 0, and the number is `(last / first - 1) * 100` over that year's first and last price. |
| Prices.CalculateAnnualReturnsInPlace | finance_tool_cagr_vol_sharpe_charts_streamlit_v3.py:47-52 | The caller's frame gains a `Year` column with each row's year, its rows are unchanged, and the result is the per-year returns. |
| Prices.AnnualReturnsExact | finance_tool_cagr_outcome_streamlit.py:101-116 | Only rows with a price above 0 count. Given two such rows, every year with one gets `(last / first - 1) * 100` over its first and last such price, which is above -100. |
| Prices.AnnualReturnsTooFew | finance_tool_cagr_outcome_streamlit.py:91-105 | Fewer than two rows, or fewer than two rows with a price above 0, give no returns. |
| Prices.OutcomeRule | finance_tool_cagr_outcome_streamlit.py:150 | A year is Outperform exactly when both sides have a number and the stock's is strictly greater. Ties and gaps are Underperform, and both sides can never outperform each other. |
| Prices.Lift | finance_tool_cagr_outcome_streamlit.py:146-149 | The joined table keeps each side's years and values. |
| EquityPerformance.FetchDataRule | finance_tool_cagr_outcome_streamlit.py:16-35 | A blank symbol is refused before any download, and the stripped symbol is downloaded. The history is accepted exactly when the download succeeds with at least two rows. |
| EquityPerformance.MetricsDefined | finance_tool_cagr_outcome_streamlit.py:38-75 | Metrics exist exactly when there are at least two rows, the first and last prices are numbers, the first is above 0 and the day span is positive. The gain then has the sign of the price change and gives the last price back, and the CAGR is taken over that span. |
| EquityPerformance.EquityPageOutcome | finance_tool_cagr_outcome_streamlit.py:121-159 | The page gets past the fetch exactly when both symbols fetch, and then reports exactly when both have metrics, showing the metrics of both. The annual table appears exactly when both sides have returns. A year there is Outperform exactly when both sides have a return and the stock's is strictly higher. |
| StockDashboard.ParseSymbols | ft_cagr_user_input.py:20 | An empty input gives no symbols. |
| StockDashboard.ParseSymbolsRule | ft_cagr_user_input.py:20 | A non-empty input gives one symbol per comma-separated piece, including empty ones. Each symbol has no comma and no surrounding white space. |
| StockDashboard.StripKeepsCommaFree | ft_cagr_user_input.py:20 | Stripping a piece without a comma leaves no comma. |
| StockDashboard.ChooseBenchmark | ft_cagr_user_input.py:34 | A non-empty custom benchmark replaces the selected one, and an empty one leaves the selection. |
| StockDashboard.SelectBox | ft_cagr_select_index_file.py:19 | The widget returns one of the options, and returns one exactly when the list is non-empty. A position inside the list picks that option. |
| StockDashboard.ChosenFileIsCsv | ft_cagr_select_index_file.py:18-19 | Only a name from the listing that ends in `.csv` can be chosen, and a file is chosen exactly when the listing has such a name. |
| StockDashboard.FetchAndCalculateRule | ft_cagr_user_input.py:43-72 | A symbol is skipped exactly when its download is empty, and it raises `ZeroDivisionError` exactly when its first and last rows share a date. Otherwise its metrics carry the requested symbol, span the first to the last row, and have a gain with the sign of the price change. |
| StockDashboard.FetchAllRule | ft_cagr_user_input.py:76 | The stocks are fetched in order. Either every one succeeds, with one result each, or the first failure is the error. |
| StockDashboard.CollectStockMetricsRule | ft_cagr_user_input.py:76 | Without benchmark metrics the comprehension raises `TypeError`. Otherwise `stock_metrics` holds exactly the non-`None` results, each fetched from the benchmark's first trading day. |
| StockDashboard.OrderResultsRule | ft_cagr_user_input.py:82 | The summary is a permutation of its rows. The benchmark-symbol rows come first in their order, and the rest follow by non-increasing CAGR with NaN last. |
| StockDashboard.ResultsTable | ft_cagr_select_index_file.py:67-70 | The table exists exactly when the benchmark has metrics, and it holds the benchmark and the stock metrics, reordered. |
| StockDashboard.MissingBenchmark | ft_cagr_select_index_file.py:63-70 | A benchmark with no data breaks the page: with stocks, `TypeError` at its first trading day; with none, `KeyError` at the `Symbol` column. |
| StockDashboard.SummaryContents | ft_cagr_select_index_file.py:62-70 | A summary holds the benchmark's metrics and those of every stock that was not skipped, and nothing else. |
| StockDashboard.StockAnalysisPage | ft_cagr_user_input.py:19-125 | Without symbols only the prompt is shown. Otherwise the page shows the summary or its error, followed by the first stock's and the benchmark's annual returns. |
| StockDashboard.SelectFilePageRule | ft_cagr_select_index_file.py:18-76 | Without a `.csv` file there is only the prompt. With one, a `.csv` file of the listing is read and the page shows the summary of its symbols, or the error that computing it raises. |
| VolatilityDashboard.FetchAndCalculateRule | finance_tool_cagr_vol_sharpe_charts_streamlit_v3.py:26-43 | An empty download gives nothing, and a zero day span is a `ZeroDivisionError`. Otherwise the result is the frame itself with metrics for the requested symbol, whose CAGR is over the frame's first and last price. |
| VolatilityDashboard.DashboardPage | finance_tool_cagr_vol_sharpe_charts_streamlit_v3.py:56-82 | The stock is fetched before the index, and the first failure is the page's error. The summary appears exactly when both metrics exist, with the index row first, and the table holds both histories' per-year returns and their verdicts. The `Year` column each frame gains is stated by Prices.CalculateAnnualReturnsInPlace. |
| VolatilityDashboard.AnnualOutcome | finance_tool_cagr_vol_sharpe_charts_streamlit_v3.py:78-82 | A year is Outperform exactly when both histories have a return for it and the stock's is strictly greater. |
| PropertyPrices.SanitiseKeyAscii | res_price_existing_dev_extract_year_month_all_v4_streamlit.py:21 | A sanitised key is pure ASCII. |
| PropertyPrices.SanitiseKeyUnchanged | res_price_existing_dev_extract_year_month_all_v4_streamlit.py:21 | An all-ASCII key is unchanged. |
| PropertyPrices.SanitiseKeyIdempotent | res_price_existing_dev_extract_year_month_all_v4_streamlit.py:21 | Sanitising twice is sanitising once. |
| PropertyPrices.SanitiseKeyRun | res_price_existing_dev_extract_year_month_all_v4_streamlit.py:21 | A maximal run of non-ASCII characters becomes exactly one space, and the ASCII characters around it stay in order. |
| PropertyPrices.SanitiseKeyAsciiPrefix | res_price_existing_dev_extract_year_month_all_v4_streamlit.py:21 | An ASCII prefix passes through unchanged. |
| PropertyPrices.RekeyRule | res_price_existing_dev_extract_year_month_all_v4_streamlit.py:21 | The rebuilt record has a key for each rewritten key. Its value is the one of the last entry whose key rewrites to it. |
| PropertyPrices.SanitiseRecordRule | res_price_existing_dev_extract_year_month_all_v4_streamlit.py:21 | Each cleaned key carries its value over unchanged, the later entry wins on a collision, and every key is ASCII. |
| PropertyPrices.RemoveAsterisksRule | res_price_existing_dev_extract_year_month_all_v4_streamlit.py:25 | No `*` is left, every other character is kept, a string without `*` is unchanged, and removal works piece by piece, keeping the order. |
| PropertyPrices.CleanMonths | res_price_existing_dev_extract_year_month_all_v4_streamlit.py:25 | Text cells lose their asterisks, and every other cell becomes missing. |
| PropertyPrices.RemoveMonthAsterisks | res_price_existing_dev_extract_year_month_all_v4_streamlit.py:25 | The frame's month column is replaced by its cleaned form. A missing column is a `KeyError`. |
| PropertyPrices.StripColumnNamesRule | res_price_existing_dev_extract_year_month_all_v4_streamlit.py:39 | Name `i` of the result is name `i` of the input stripped, so each name keeps its position and has no surrounding white space left. |
| PropertyPrices.YearOnYearAfterDropna | res_price_existing_dev_extract_year_month_all_v4_streamlit.py:41-69 | After `dropna`, the change at row `i >= 12` is `(v[i] / v[i-12] - 1) * 100` when `v[i-12]` is not 0, and the first 12 rows have none. |
| PropertyPrices.AddSelectedYearOnYear | res_price_existing_dev_extract_year_month_all_v4_streamlit.py:69 | The frame gains `<selected>_yoy` holding the lag-12 change. A missing series is a `KeyError`. When no base of the change is 0, a `TypeError` is raised exactly when, after padding, some text cell and a present cell twelve rows away from it form a pair; text without such a partner only gives missing changes. |
| Frames.KeptRows | res_price_existing_dev_extract_year_month_all_v4_streamlit.py:41 | The kept positions are exactly the complete rows, in ascending order. |
| Frames.DropIncompleteRule | res_price_existing_dev_extract_year_month_all_v4_streamlit.py:41 | `dropna` keeps exactly the complete rows in their order, and no cell is left missing. |
| Frames.ForwardFill | api_hk_retail_sales_streamlit_v3.py:38 | The padding keeps every present cell and the first row, and a missing cell below the first takes the padded value of the row above. |
| Frames.ForwardFillLastPresent | api_hk_retail_sales_streamlit_v3.py:38 | A missing cell takes the last present value above it. |
| Frames.YearOnYear | api_hk_retail_sales_streamlit_v3.py:38 | One change per row, each taken from the padded column and the row twelve places up. |
| Frames.YearOnYearComplete | api_hk_retail_sales_streamlit_v3.py:38 | On a numeric column, the change at row `i >= 12` is `(v[i] / v[i-12] - 1) * 100` when `v[i-12]` is not 0. |
| Frames.YearOnYearLeadingMissing | api_hk_retail_sales_streamlit_v3.py:38 | The first 12 rows have no change. |
| Frames.YearOnYearInverse | api_hk_retail_sales_streamlit_v3.py:38 | Applying a change to the padded value twelve rows up gives the padded value of the row. |
| Frames.Frame.AddYearOnYear | api_hk_retail_sales_streamlit_v3.py:38 | The target column is added or replaced by the change of the source column, and nothing else changes. A missing source is a `KeyError`. When no base of the change is 0, a `TypeError` is raised exactly when, after padding, a text cell and the present cell twelve rows away from it form a pair. |
| Frames.TextClashHasText | api_hk_retail_sales_streamlit_v3.py:38 | Only a column that holds text can be refused by `pct_change`. |
| Frames.ShortColumnNoClash | api_hk_retail_sales_streamlit_v3.py:38 | A column of at most twelve rows never makes `pct_change` raise, whatever text it holds. |
| Frames.CompleteTextClash | api_hk_retail_sales_streamlit_v3.py:38 | In a column with no missing cell, a text cell with a cell twelve rows above or below it is a pair `pct_change` refuses, so the column is refused. |
| Frames.Frame.SetIndex | api_hk_retail_sales_streamlit_v3.py:40 | The column becomes the row labels and leaves the columns. A missing column is a `KeyError`. |
| RetailSales.KeepRowsRule | api_hk_retail_sales_streamlit_v3.py:30-32 | A row is kept exactly when `freq` lacks `Y`, `OUTLET_TYPEDesc` lacks `Total` and `svDesc` contains `Index`. The order is kept, and the three filters equal one combined filter. |
| RetailSales.FormatPeriodRoundTrip | api_hk_retail_sales_streamlit_v3.py:35 | `YYYYMM` becomes `YYYY-MM-01`, which converts back to the same period, and every such date is the format of its own period. |
| RetailSales.DateOrder | api_hk_retail_sales_streamlit_v3.py:35-36 | String order on the formatted dates is year-and-month order. |
| RetailSales.DigitsLess | api_hk_retail_sales_streamlit_v3.py:36 | For digit strings of one length, strict string order is strict numeric order. |
| RetailSales.SortByDate | api_hk_retail_sales_streamlit_v3.py:36 | The rows are sorted by date and are a permutation of the input. |
| RetailSales.RetailTableRule | api_hk_retail_sales_streamlit_v3.py:29-41 | The table holds the kept rows as a permutation, with their periods as dates in chronological order. The figures are in `<series>_volume_index`, and `<series>_volume_index_yoy` is their lag-12 change. |
| RetailSales.RetailTableErrors | api_hk_retail_sales_streamlit_v3.py:29-38 | An empty `dataSet` is a `KeyError`. A kept period that does not parse is a `ValueError`. Otherwise, when no base of the change is 0, `TypeError` is raised exactly when `pct_change` refuses the figures in date order. That needs a text figure among the kept rows, and it never happens with twelve kept rows or fewer. |
| RetailSales.FiguresText | api_hk_retail_sales_streamlit_v3.py:38 | The sorted rows have a text figure exactly when some kept row has one. |
| RetailSales.FetchRetailData | api_hk_retail_sales_streamlit_v3.py:11-41 | `fetch_data` returns a new frame holding exactly the table, or fails with the table's error. |
| RetailSales.MoveToIndex | api_hk_retail_sales_streamlit_v3.py:37-40 | Once `period` moves into the index, exactly the two series columns are left. |
| RetailSales.Description | api_hk_retail_sales_streamlit_v3.py:45 | `series_dict[series]` succeeds exactly for the described series. |
| RetailSales.SeriesCoverage | api_hk_retail_sales_streamlit_v3.py:76-114 | Every series offered in the selectbox has a description, and every described series is offered. |
| Sequences.Filter | ft_cagr_select_index_file.py:18 | A selection keeps exactly the elements that pass the test. |
| Sequences.FilterAppend | ft_cagr_select_index_file.py:18 | A selection of `a + b` is the selection of `a` followed by that of `b`, so the relative order is kept. |
| Sequences.FilterComplement | ft_cagr_select_index_file.py:70 | A selection and its complement together are a permutation of the input. |
| Sequences.Distinct | next_mtr_v3_up_down_streamlit_v9_dropdowns.py:19 | `unique()` keeps every element once and nothing else. |
| Sequences.DistinctFollowsFirstOccurrence | next_mtr_v3_up_down_streamlit_v9_dropdowns.py:19 | `unique()` lists its elements in the order of their first occurrence. |
| Sequences.SortBy | ft_cagr_select_index_file.py:70 | `sort_values` gives a sorted permutation. |
| Sequences.Somes | ft_cagr_select_index_file.py:64 | `[m for m in ms if m is not None]` keeps exactly the values that are present. |
| Sequences.SomesAppend | ft_cagr_select_index_file.py:64 | That comprehension keeps the order. |
| Text.Strip | finance_tool_cagr_outcome_streamlit.py:18 | `strip()` neither starts nor ends with white space, and is empty exactly when the input is all white space. |
| Text.StripIsSlice | finance_tool_cagr_outcome_streamlit.py:22 | `strip()` cuts only white space off each end of a contiguous slice. |
| Text.StripIdempotent | res_price_existing_dev_extract_year_month_all_v4_streamlit.py:39 | Stripping twice is stripping once. |
| Text.Find | next_mtr_v3_up_down_streamlit_v9_dropdowns.py:43 | Gives the first position of the separator, or none exactly when it does not occur. |
| Text.Split | next_mtr_v3_up_down_streamlit_v9_dropdowns.py:43 | `split(sep)` gives at least one piece. The pieces joined with `sep` give the input back, and no piece contains `sep`. |
| Text.SplitAtFirst | next_mtr_v3_up_down_streamlit_v9_dropdowns.py:43 | Splitting cuts at the first occurrence of the separator. |
| Text.SplitCharCount | ft_cagr_user_input.py:20 | Splitting on one character gives one more piece than that character has occurrences. |
| Text.LexLeTotal | next_mtr_v3_up_down_streamlit_v9_dropdowns.py:35 | Any two strings are ordered one way or the other. |
| Text.LexLeTransitive | next_mtr_v3_up_down_streamlit_v9_dropdowns.py:35 | String order is transitive. |
| Text.LexLeDigits | api_hk_retail_sales_streamlit_v3.py:36 | For digit strings of one length, string order is numeric order. |

## Left out

- The haversine formula (nearest_bus_stop_to_me_streamlit_hardcode_directions_v2.py:5-12) is an abstract function of the four coordinates. Nothing is claimed about its values: not self-distance 0, not symmetry, not antipodes.
- I/O is not modelled: reading the stop file, `pd.read_csv`, `os.listdir`, `yf.download`, `requests.get` and `requests.post`. Their results are parameters: rows, a listing, a download function, an HTTP reply.
- Streamlit widgets, messages and layout are not modelled. Neither are the matplotlib plots, the Google Maps link or the `print` debugging. A page's outcome is a screen datatype.
- Floating-point numerics are not modelled: the CAGR power `** (365.25 / days)` (an abstract `Power` parameter), volatility, mean, Sharpe ratio and `np.sqrt(252)` (an abstract `Statistics` parameter), and `round(..., 2)`. The model uses exact reals, and NaN and infinity are `None`.
- `pd.to_datetime(df['  Year'] + '-' + df['  Month'], errors='coerce')` (res_price_existing_dev_extract_year_month_all_v4_streamlit.py:28) is not modelled. Neither are the drop, rename and reorder of lines 31-37, which only move columns. The property page's frame is taken after those steps.
- RetailSales.FormatPeriod treats a six-digit period with a month from 1 to 12 inside the pandas `Timestamp` range as the only valid input. Inputs that pandas' `%Y%m` parser may also accept, such as five-character forms, are `ValueError` here.
- The second `pd.to_datetime` at api_hk_retail_sales_streamlit_v3.py:39 is not modelled. The index keeps the `YYYY-MM-01` text, which converts to the same instants in the same order.
- The integer row labels that the sort and filters carry along are not modelled. Only row order and contents are.
- The `.str` accessor on a column with no text at all (res_price_existing_dev_extract_year_month_all_v4_streamlit.py:25), which pandas refuses with `AttributeError`, is modelled cell by cell: a cell that is not text becomes missing.
- `calculate_annual_returns` turns `Year` into text before grouping, and text years sort as numbers do for four-digit years. The model keys the returns by the integer year.
- pandas' `sort_values` is not stable by default. SortBy is a stable insertion sort, and only sortedness and permutation are claimed about it.
- StockDashboard.StockAnalysisPage: the annual-returns table of ft_cagr_user_input.py:119-125 is not modelled as a joined frame. The page holds the two per-year maps.
- get_gps_googleapi_streamlit.py and hk_get_address_v7_streamlit_lat_long_map.py are not part of this model. They are browser geolocation, an address lookup and maps, with no logic of their own.
- nearest_bus_stop_to_me_streamlit_hardcode_directions_v2.py reports errors in these ways:
  - An empty stop file returns `None`, infinity and no routes.
  - An unknown route raises `KeyError` (RouteEndpoints).
  - Coordinates are not range-checked.
- BusStop.FindNearestBusStop: coordinates and distances are finite reals, so neither NaN nor infinity can be represented, yet `float()` accepts `nan`, `inf` and `-inf`. In the source, `nan` makes every haversine distance NaN. Both `<` (line 35) and `==` (line 43) are then false for every row, so a non-empty file reports `None`, infinity and no routes. `inf` or `-inf` makes `sin`/`cos` (line 9) raise `ValueError` on the first row, which nothing catches. The model captures neither outcome.
- PropertyPrices: the download (res_price_existing_dev_extract_year_month_all_v4_streamlit.py:15-47) is not modelled, and the page starts from the reply's records. On a reply other than 200, `fetch_data` reaches `return None` (line 47) unless the `st.error` call at line 46 fails first, and line 60 then raises `TypeError` at `df['Period']`. Neither failure is captured.
- Frames.Frame.AddYearOnYear: never gives `ZeroDivisionError`. On a column holding text, pandas (api_hk_retail_sales_streamlit_v3.py:38) divides the Python objects one pair at a time, and a pair whose base twelve rows up is 0 raises `ZeroDivisionError` rather than giving infinity. Whether that or a `TypeError` comes first depends on the row order and on whether a missing cell is `None` or NaN, which the single `Missing` cell does not tell apart. The model gives `Ok` with a missing change for such a pair, or `TypeError` when the column has a text pair; it matches pandas on every column where no base of the change is 0.
- PropertyPrices.AddSelectedYearOnYear: the same `ZeroDivisionError` case at res_price_existing_dev_extract_year_month_all_v4_streamlit.py:69 is not modelled, for the same reason as `Frames.Frame.AddYearOnYear`.
- RetailSales.RetailTableErrors: the same `ZeroDivisionError` case for the figures is not modelled (see `Frames.Frame.AddYearOnYear`); the `TypeError` condition is exact only when no figure used as a base is 0.
- RetailSales.RetailTableErrors: every record is assumed to carry `sv`, `sd_value`, `freq`, `OUTLET_TYPEDesc`, `svDesc`, `period` and `figure`, with text in the three filter fields. In api_hk_retail_sales_streamlit_v3.py a record that lacks one of them makes the filters, `drop` (line 33) or the column selection (line 34) raise `KeyError` or `AttributeError`, even when `dataSet` is not empty. The model has no such error.

## Findings

| source | as written | input that shows it | evidently intended | confidence | as-written member | corrected member |
|---|---|---|---|---|---|---|
| next_mtr_v3_up_down_streamlit_v9_dropdowns.py:50-66 | `get_latest_json_data` returns `None` for any status other than 200. The `if` at line 50 is false for `None`, and the `elif` at line 63 evaluates `'error' in None`, which raises `TypeError`, so the "Invalid data received from API" branch is never reached for a failed request. | any reply with status 404 (or 500) for the chosen line and station | a failed request shows "Invalid data received from API" (the `elif` guarded by `data and`) | high; not executed | NextTrain.NonOkReplyCrashes | NextTrain.ScheduleViewGuarded |
