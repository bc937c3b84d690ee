# Qtrading_us screen and bookkeeping, modelled in Dafny

Qtrading_us is a daily US-stock momentum screen. It refreshes a local price
table from the downloader, loads the recent rows and runs `pick_stocks`. That
function applies a per-ticker cascade of gates: row count, 10-day volume,
MA20 warm-up, price above MA20, high-low range, MA20 slope, volatility and
distance from the MA20. The survivors are split into a "strong" group and a
"potential" group, and each group is trimmed to six. `main` then reports the
two groups and keeps a 30-entry run-history index.

Around this core sit several smaller pieces:
- the keyed SQLite price table;
- the choice of ticker universe (environment, JSON file, or built-in list);
- the script that rebuilds the ticker list from the NASDAQ directory files;
- two liquidity screens: one batched, and one resumable with saved progress.

The model covers each piece in the form the source uses:
- Pure selection logic becomes datatypes, functions and lemmas.
- Loops that build lists become `method`s with loop invariants, proved equal to a specification function.
- The price table becomes a `class` `PriceStore` whose `rows` map is updated by `UpsertPrices`.

Each downloader, file and database read is a parameter: a map, a datatype of outcomes, or an oracle function.

Modules:
- `PriceData`: `Bar`, `PriceRow` and the `(code, date)` key.
- `Database`: `modules/database.py`.
- `Features`: the per-ticker cascade of `pick_stocks`.
- `StockData`: the rest of `modules/stock_data.py`: the download list, normalisation, grouping and trimming.
- `MainFlow`: `main.py` steps 3 and 4 and the history index.
- `StockCodes`: `modules/stock_codes.py`.
- `UpdateStockList`: `update_stock_list.py`.
- `LiquidIncremental`: `filter_liquid_stocks_v2.py`.
- `LiquidBatched`: `filter_liquid_stocks.py`.
- `Volume`: the shared volume test and `int()`.
- Helper modules: `Strings`, `Lists`, `Sorting`, `Ranking` and `Stats`, covering ISO-date order, `str.strip`, `str.split`, filtering, stable sorting, `nsmallest` and NaN-skipping means.

Modelling choices:
- Dates are ISO `YYYY-MM-DD` strings ordered lexicographically (`Strings.LexLess`), as the source compares them.
- Prices are positive reals and volumes are naturals.
- The volatility is kept squared (`volatilitySq`), because Dafny's reals have no square root. Every gate that mentions it is restated on the square, and `Features.VolatilityGatesExact` proves the restated gates equivalent to the original ones.

Three behaviours of the code that the model follows:
- **Rows needed.** A ticker needs 24 rows. `rolling(20, min_periods=20)` defines the MA20 from row 20 onward, and the MA20 must exist on each of the last five rows (`Features.WarmUp`, `Features.FewRowsExcluded`).
- **Symbol filter.** `str.match(r'^[A-Z]+$')` also accepts a symbol followed by one final line break, because `$` matches before a trailing newline. `UpdateStockList.IsSymbol` models this, and `UpdateStockList.CleanSymbolsCapitals` proves only line-break-free symbols are pure capitals.
- **Default list.** The built-in default list repeats tickers (AMZN, TSLA, GOOGL, META). It is returned as-is; see Findings.

## Model

| member | source | states |
|---|---|---|
| Database.InputMap | modules/database.py:67 | the staged input as a map has exactly the input's `(code, date)` keys, each mapped to a row carrying that key |
| Database.InputMapHolds | modules/database.py:67-76 | with distinct input keys, every input row is what its own key maps to |
| Database.Upserted | modules/database.py:70-76 | the table after delete-then-insert: the old rows minus every input key, plus the staged input; `UpsertedSpec` and `UpsertIdempotent` state what it means |
| Database.UpsertedSpec | modules/database.py:70-76 | after delete-then-insert with distinct input keys: every input key maps to its input row, every other stored key is unchanged, no other key appears, and the key of every row still matches its slot |
| Database.UpsertIdempotent | modules/database.py:70-76 | upserting the same input twice gives the same table as once |
| Database.UpsertEmpty | modules/database.py:60-61 | an empty input leaves the table unchanged |
| Database.PriceStore.constructor | modules/database.py:41-42 | a store starts with no database file and no rows |
| Database.PriceStore.EnsureDb | modules/database.py:16-34 | creating the table makes the database present and keeps the stored rows |
| Database.PriceStore.GetExistingDataRange | modules/database.py:39-50 | no database gives the empty map; otherwise exactly the stored codes appear, each with the smallest and largest of its stored date strings |
| Database.PriceStore.UpsertPrices | modules/database.py:53-82 | the insert succeeds exactly when the input keys are distinct; on success the table is the upsert of the old table, and on failure (the primary-key violation rolls back) it is unchanged |
| Database.PriceStore.LoadRecentPrices | modules/database.py:87-109 | exactly the stored rows whose date is on or after the cutoff instant, unchanged; nothing when there is no database |
| Database.OnOrAfter | modules/database.py:107-108 | a stored date, read as that day's midnight, is at or after the cutoff instant: a later day, or the same day with the cutoff at midnight; `PriceStore.LoadRecentPrices` keeps exactly those rows |
| Features.Ma20 | modules/stock_data.py:113-118 | the MA20, when defined, is positive |
| Features.Ma20Bounds | modules/stock_data.py:115 | the MA20 lies between the smallest and largest of its 20 closes |
| Features.Ma20Step | modules/stock_data.py:115 | consecutive MA20 values differ by the entering close minus the leaving close, over 20 |
| Features.LastFiveMa | modules/stock_data.py:133-152 | the five MA20 values of the last five rows, each defined and positive |
| Features.WarmUp | modules/stock_data.py:115-135 | with at least 10 rows, an MA20 is missing on one of the last five rows exactly when there are fewer than 24 rows |
| Features.FewRowsExcluded | modules/stock_data.py:115-135 | a ticker with fewer than 24 rows is never a candidate |
| Features.Evaluate | modules/stock_data.py:121-197 | the per-ticker cascade: no record at the first failing gate (rows, 10-day volume, MA20 warm-up), else the window assessment; `EvaluateSpec` proves it equal to the index-based `Qualifies`/`Describes` |
| Features.ShortCircuit | modules/stock_data.py:123-135 | fewer than 24 rows or a 10-day mean volume below 1,000,000 means no candidate and the gates fail |
| Features.Assess | modules/stock_data.py:137-197 | the gates after the MA20 check, in source order, and the appended record; `AssessSpec` and `AssessAdmissible` state its meaning |
| Features.AssessSpec | modules/stock_data.py:137-197 | on the windows, a record is produced exactly when the above-MA, range, slope, volatility and distance gates all pass, and then it holds the window statistics |
| Features.QualifiesByWindows | modules/stock_data.py:121-175 | past the warm-up, the window gates plus the volume gate are equivalent to the index-based gates |
| Features.EvaluateByWindows | modules/stock_data.py:121-197 | past the warm-up and the volume gate, the cascade is the window assessment on the last 10 rows, last 5 rows and their MA20s |
| Features.EvaluateSpec | modules/stock_data.py:121-197 | a ticker yields a candidate exactly when it passes every gate in the order of the cascade, and the candidate's fields are the latest close, volume, MA20, slope, lowest-close flag and averaged statistics of its series |
| Features.EvaluateLong | modules/stock_data.py:127-197 | the same equivalence for a series already past the warm-up and volume gates |
| Features.AboveMa | modules/stock_data.py:137-142 | the window test `(open+close)/2 > ma20` on the last five rows equals the test on those row indices |
| Features.LowestClose | modules/stock_data.py:182-183 | the latest close equals the 5-day minimum close exactly when it is at most every close of the last five rows |
| Features.EvaluateAdmissible | modules/stock_data.py:144-175 | every candidate has 10-day volume at least 1,000,000, slope below 2, volatility at most 8, distance within `max(3, 1.5·volatility)`, positive MA20, and its own code |
| Features.AssessAdmissible | modules/stock_data.py:144-175 | the same about a window assessment that passed the volume gate |
| Features.DistanceCapSquared | modules/stock_data.py:167-174 | a distance within the cap is at most 3 or its square is at most the squared `max_distance` |
| Features.VolatilitySq | modules/stock_data.py:159-161 | the square of `volatility_pct`: the sample variance of the last five closes over the squared mean close, times 100², or 999² for a non-positive mean; `VolatilityGatesExact` ties its gates to the square-root form |
| Features.VolatilityGatesExact | modules/stock_data.py:159-174 | for a non-negative volatility with square `volSq`, `volatility <= 8` and `distance <= max(3, 1.5·volatility)` are equivalent to the squared gates the model uses |
| Features.CloseSumBounds | modules/stock_data.py:115 | a sum of closes lies between count·lower and count·upper bound |
| StockData.NeedsFetch | modules/stock_data.py:30-38 | a stripped code is fetched when it is non-empty and has no stored range or a stored max date sorting before today; `FetchListMembers` states the consequence for the list |
| StockData.FetchList | modules/stock_data.py:27-41 | the download list: the stripped codes that need fetching, in order, repeats kept; `FetchListMembers`, `FetchListOccurrences` and `FetchListOrder` characterise it |
| StockData.CodesToFetch | modules/stock_data.py:27-41 | the loop builds exactly the download list: stripped codes that are non-empty and missing or stale, in input order |
| StockData.FetchListMembers | modules/stock_data.py:27-41 | a ticker is on the download list exactly when some input code strips to it, it is non-empty, and it is absent from the stored ranges or its stored max date sorts before today |
| StockData.FetchListOccurrences | modules/stock_data.py:27-41 | each ticker appears as often as input codes strip to it (duplicates kept), or not at all when it is fresh |
| StockData.FetchListOrder | modules/stock_data.py:27-41 | the download list keeps the order of the stripped input |
| StockData.FetchListStripEach | modules/stock_data.py:29-31 | every listed ticker is non-empty and already stripped |
| StockData.FetchListAppend | modules/stock_data.py:27-41 | the list of a concatenated input is the concatenation of the lists |
| StockData.FetchListSingle | modules/stock_data.py:27-41 | a single stripped code that needs fetching is its own download list |
| StockData.FetchPrices | modules/stock_data.py:24-80 | the downloader is called exactly when the download list is non-empty; otherwise the result is empty, and otherwise it is the normalisation of that call's response |
| StockData.Normalised | modules/stock_data.py:63-80 | the normalised table: for each listed ticker the response holds, its bars tagged with its code, in list order; `NormalisedSpec` and `NormalisedAt` characterise it |
| StockData.Normalise | modules/stock_data.py:63-80 | the loop output is the normalised table |
| StockData.Tagged | modules/stock_data.py:75 | each bar of a ticker becomes one row carrying that ticker's code |
| StockData.NormalisedAppend | modules/stock_data.py:63-79 | normalising a concatenated list is the concatenation of the normalisations |
| StockData.NormalisedSpec | modules/stock_data.py:63-79 | every row carries a listed ticker the response holds and one of its bars, and every bar of every listed ticker in the response is a row; absent tickers contribute nothing |
| StockData.NormalisedAt | modules/stock_data.py:63-79 | bar `k` of the `i`-th listed ticker sits right after the rows of the tickers before it |
| StockData.RepeatedTickerRepeatsKeys | modules/stock_data.py:63-79 | a ticker listed twice with at least one bar yields repeated `(code, date)` keys |
| StockData.DuplicateAmznFailsUpsert | modules/stock_data.py:27-79 | concretely: `["AMZN", "AMZN"]` on an empty database with one AMZN bar gives rows with a repeated key |
| StockData.NormalisedOnceDistinct | modules/stock_data.py:63-79 | normalising each listed ticker once gives distinct keys when each series has one bar per date, and keeps exactly the same rows |
| StockData.TableCodes | modules/stock_data.py:121 | the groupby visits each code of the table once, in ascending order |
| StockData.SeriesOf | modules/stock_data.py:111-122 | a ticker's group of the table sorted by date, as its bars; `SeriesSpec` states it is the date-sorted permutation of that code's rows |
| StockData.SeriesSpec | modules/stock_data.py:111-122 | a ticker's series is sorted by date and holds exactly its table rows, once per row |
| StockData.OutcomeSpec | modules/stock_data.py:121-197 | the per-ticker evaluation keeps the ticker's own code and yields only admissible records |
| StockData.CollectMembers | modules/stock_data.py:120-197 | the results are exactly the records the cascade yields for the visited codes |
| StockData.CollectCodes | modules/stock_data.py:120-197 | every result belongs to a visited code and is that code's evaluation |
| StockData.CollectDistinct | modules/stock_data.py:120-197 | over strictly ascending codes, the results have distinct codes |
| StockData.CollectCandidates | modules/stock_data.py:120-197 | the groupby loop collects exactly the candidate records of the visited codes |
| StockData.NSmallest | modules/stock_data.py:212 | the selection has `min(k, n)` records |
| StockData.NSmallestSpec | modules/stock_data.py:212-216 | `nsmallest` returns the records at the rows `Ranking.Smallest` selects, in its order, so in ascending `avg_ma20_distance` with each at most every dropped one and ties to the earlier row; distinct codes stay distinct |
| StockData.NSmallestWithin | modules/stock_data.py:212 | the selection only holds records of the group |
| StockData.Trim | modules/stock_data.py:209-226 | the per-group trim to six; `TrimSpec` states which records each of its four cases keeps and `TrimWithin` its bound |
| StockData.TrimSpec | modules/stock_data.py:209-226 | a group of at most 6 is unchanged; otherwise, when 1-6 records' latest close is not their 5-day low, exactly those are kept; when more than 6 are, the trim is `nsmallest(6)` of them; when none is, it is `nsmallest(6)` of the whole group (`NSmallestSpec` fixes which records that keeps) |
| StockData.TrimWithin | modules/stock_data.py:209-226 | a trimmed group has at most 6 records, all from the group |
| StockData.TrimDistinct | modules/stock_data.py:209-226 | trimming keeps codes distinct |
| StockData.FilterDistinct | modules/stock_data.py:205-206 | a slope filter keeps codes distinct |
| StockData.GroupAndTrim | modules/stock_data.py:202-228 | the output is the trimmed strong group followed by the trimmed potential group |
| StockData.Picks | modules/stock_data.py:88-229 | the result of `pick_stocks`: nothing for an empty table, else the trimmed groups of the collected cascade records; `PicksShape`, `PicksFromCascade` and `PicksDistinct` state its properties |
| StockData.PickStocks | modules/stock_data.py:88-229 | the method computes the specified picks for any `top_k` |
| StockData.PicksEmpty | modules/stock_data.py:109-110 | an empty table gives no picks |
| StockData.PicksShape | modules/stock_data.py:199-228 | at most 12 picks: the trimmed strong group then the trimmed potential group of the collected results |
| StockData.GroupsInOrder | modules/stock_data.py:228 | the first part of the concatenation is strong, the rest potential |
| StockData.PicksFromCascade | modules/stock_data.py:121-228 | every pick is the cascade's record for one of the table's codes, and admissible |
| StockData.PicksFromResults | modules/stock_data.py:202-228 | every pick is one of the collected results |
| StockData.PicksDistinct | modules/stock_data.py:121-228 | the picks have distinct codes |
| StockData.TrimmedDistinct | modules/stock_data.py:205-228 | the concatenation of the two trimmed groups has distinct codes |
| StockData.TrimAcross | modules/stock_data.py:205-228 | no code is in both trimmed groups |
| StockData.SplitCodesDiffer | modules/stock_data.py:205-206 | a strong and a potential record of distinct-code results differ in code |
| StockData.GroupsPartition | modules/stock_data.py:205-206 | for admissible records (slope below 2) each record is in exactly one group, as often as in the results; slope 0.8 is strong |
| MainFlow.CodesOfRecords | main.py:72-73 | the code list names each group record in order |
| MainFlow.Run | main.py:52-73 | how a run ends on `TOP_K` and the loaded history: `int()` raising on `TOP_K` first, then no history, no picks, or the picks with their strong and potential code lists; `RunSpec` states each case |
| MainFlow.RunSpec | main.py:52-73 | the run raises exactly when `TOP_K` does not parse; otherwise it stops with no history exactly on an empty table, with no picks exactly when the table is non-empty and nothing is picked, and otherwise reports the picks with two disjoint code lists that together name every pick |
| MainFlow.TopKDecidesFirst | main.py:52-57 | an unset `TOP_K` never stops the run, and an empty one raises even on an empty table, before the no-history exit |
| MainFlow.GroupCodesSplit | main.py:69-73 | for distinct-code picks with slope below 2, the group code lists are disjoint and their lengths add up to the number of picks, covering every pick |
| MainFlow.SplitLength | main.py:69-70 | the two slope filters of slope-below-2 records sum to all records |
| MainFlow.FirstWithDate | main.py:177 | the index of the first entry with the date, or the length when there is none |
| MainFlow.FirstWithDateUnique | main.py:177 | that index is the only one with no earlier match |
| MainFlow.UpdateHistory | main.py:168-193 | the saved history is the updated, sorted and truncated list with the new counts |
| MainFlow.Updated | main.py:177-190 | update the first entry of the date, or append a new one; `UpdatedPresent`, `UpdatedAbsent` and `UpdatedFrom` state its meaning |
| MainFlow.UpdatedPresent | main.py:177-183 | an existing date's first entry gets the new counts, length and every other entry unchanged |
| MainFlow.UpdatedAbsent | main.py:184-190 | a new date appends exactly one entry |
| MainFlow.UpdatedFrom | main.py:177-190 | every updated entry is the new one or an old one |
| MainFlow.Saved | main.py:193 | the updated history sorted newest first and cut to 30; `SavedSorted`, `SavedEntries` and `SavedNewestFirst` state its meaning |
| MainFlow.SavedSorted | main.py:193 | the saved history is sorted by date, newest first, and has `min(30, n)` entries |
| MainFlow.SavedEntries | main.py:193 | every saved entry is the new one or an old one |
| MainFlow.SavedNewest | main.py:192-193 | the saved entries are a sub-multiset of the update, none repeated or invented, and every dropped entry is no newer than every kept one: the 30 newest are kept |
| MainFlow.SavedNewestFirst | main.py:193 | a date newer than every stored one is the first saved entry |
| StockCodes.ParseCodes | modules/stock_codes.py:151 | the non-blank comma pieces, stripped, in order; `ParseCodesClean`, `ParseCodesComplete` and `ParseCodesOrder` characterise them |
| StockCodes.ParseCodesClean | modules/stock_codes.py:151 | every parsed code is non-empty, stripped and free of commas |
| StockCodes.ParseCodesComplete | modules/stock_codes.py:151 | every comma piece that is not blank is in the result, stripped |
| StockCodes.ParseCodesOrder | modules/stock_codes.py:151 | the parsed codes keep the order of the pieces |
| StockCodes.LoadStockList | modules/stock_codes.py:113-135 | a missing or unreadable file gives `None`, a missing `tickers` field `[]`, and otherwise the field |
| StockCodes.GetStockCodes | modules/stock_codes.py:138-163 | the universe by priority: a non-blank environment value, else a non-empty JSON list, else the default list; `EnvFirst`, `JsonSecond` and `DefaultLast` state the three cases |
| StockCodes.EnvFirst | modules/stock_codes.py:149-153 | a non-blank environment value wins and is parsed after stripping |
| StockCodes.BlankCustom | modules/stock_codes.py:149-150 | an unset or whitespace-only value strips to empty |
| StockCodes.JsonSecond | modules/stock_codes.py:156-159 | with a blank environment value, a non-empty JSON list is used |
| StockCodes.DefaultLast | modules/stock_codes.py:156-163 | with a blank environment value and a missing, unreadable or empty JSON list, the default list is used |
| StockCodes.EnvCodesNonEmpty | modules/stock_codes.py:149-153 | codes from the environment are non-empty and stripped |
| StockCodes.DefaultRepeatsAmzn | modules/stock_codes.py:11-56 | the default list has 230 entries with `AMZN` at positions 4 (line 13) and 70 (line 26) |
| StockCodes.DefaultUniverseFailsUpsert | modules/stock_codes.py:11-56 | with the default list and an AMZN bar, a fresh database's download gives rows the upsert refuses |
| StockCodes.RepeatedCodeFailsUpsert | modules/stock_codes.py:149-163 | any universe listing a stripped code twice gives a repeated key when that code has bars |
| StockCodes.GetStockName | modules/stock_codes.py:166-176 | a known code gives its mapped name, any other code itself |
| StockCodes.PicksTopK | modules/stock_codes.py:179-186 | `int(os.environ.get("TOP_K", "12"))`; `TopKDefault` states the default |
| StockCodes.TopKDefault | modules/stock_codes.py:179-186 | with `TOP_K` unset the limit is 12 |
| StockCodes.ParseInt | modules/stock_codes.py:186 | `int()` on a string: optional whitespace, an optional sign and ASCII digits, `None` otherwise; `ParseIntDecimal` states the round trip |
| StockCodes.DecimalRoundTrip | modules/stock_codes.py:186 | reading the decimal digits of `n` gives back `n` |
| StockCodes.ParseIntDecimal | modules/stock_codes.py:186 | `int()` of any integer's decimal form, padded with whitespace, is that integer |
| StockCodes.ParseTrimmedDecimal | modules/stock_codes.py:186 | `int()` of an integer's decimal form is that integer |
| UpdateStockList.Filtered | update_stock_list.py:64-92 | the tickers within the length bounds that contain no exclude pattern, in order; `FilteredMembers` and `FilteredOrder` characterise it |
| UpdateStockList.FilterTickers | update_stock_list.py:64-92 | the loop returns exactly the filtered list |
| UpdateStockList.FilteredOrder | update_stock_list.py:80-92 | the output is an order-preserving subsequence of the input |
| UpdateStockList.FilteredMembers | update_stock_list.py:77-90 | a ticker is kept exactly when it is in the input, its length is within the bounds, and it contains no pattern; `None` means no patterns |
| UpdateStockList.FilteredRepeats | update_stock_list.py:80-90 | a ticker meeting the criteria is kept as often as it occurs |
| UpdateStockList.FilteredCriteria | update_stock_list.py:83-88 | every kept ticker meets the length bounds and contains no pattern |
| UpdateStockList.EmptyPatternKeepsNothing | update_stock_list.py:87-88 | an empty pattern is in every ticker, so nothing is kept |
| UpdateStockList.Present | update_stock_list.py:47 | `dropna` keeps exactly the present cells |
| UpdateStockList.IsSymbol | update_stock_list.py:50 | `re.match(r'^[A-Z]+$')`: one or more capitals, optionally followed by one final line break; `CleanSymbolsCapitals` states what that admits |
| UpdateStockList.CleanSymbols | update_stock_list.py:41-53 | the sorted unique symbols of both columns' present cells; `CleanSymbolsSpec` characterises them |
| UpdateStockList.CleanSymbolsSpec | update_stock_list.py:41-53 | the cleaned list is strictly ascending and holds exactly the symbols of either column |
| UpdateStockList.CleanSymbolsCapitals | update_stock_list.py:50 | every cleaned symbol is non-empty, and pure capitals unless it holds a line break |
| UpdateStockList.FetchAllTickers | update_stock_list.py:31-61 | `[]` on a failed read or a missing column, else the cleaned symbols; `FetchAllTickersSpec` states it |
| UpdateStockList.FetchAllTickersSpec | update_stock_list.py:31-61 | any failure gives `[]`; otherwise the sorted unique symbols of both files |
| UpdateStockList.UpdateList | update_stock_list.py:123-150 | stop when nothing was fetched, else the full list and its filtered selection; `UpdateListSpec` states it |
| UpdateStockList.UpdateListSpec | update_stock_list.py:123-150 | the run stops exactly when no tickers were fetched; otherwise the full list is sorted without repeats and the saved list is its ordered selection of 1-5 characters without `TEST` or `ZZZZ` |
| LiquidIncremental.CheckSingleStock | filter_liquid_stocks_v2.py:44-79 | a record exactly when the history was read, has at least 3 rows and a mean volume of at least `min_volume`; it names the ticker and has `int(mean) >= min_volume` |
| LiquidIncremental.LoadProgress | filter_liquid_stocks_v2.py:27-35 | a missing or unreadable progress file loads as empty; otherwise its lists |
| LiquidIncremental.FilterByVolumeIncremental | filter_liquid_stocks_v2.py:82-157 | the results are the loaded results followed by the passing remaining tickers, and the saves are the periodic checkpoints followed by one final completed save |
| LiquidIncremental.ScreenRemaining | filter_liquid_stocks_v2.py:121-146 | the loop ends in the state after all remaining tickers, having saved every periodic checkpoint |
| LiquidIncremental.RemainingSpec | filter_liquid_stocks_v2.py:112 | `remaining` holds the input tickers not processed, in input order |
| LiquidIncremental.FreshRunScreensAll | filter_liquid_stocks_v2.py:102-112 | a non-resume run starts with no results and screens every ticker |
| LiquidIncremental.ProcessedCoversInput | filter_liquid_stocks_v2.py:104-134 | the final processed set is the loaded set together with every input ticker |
| LiquidIncremental.Screened | filter_liquid_stocks_v2.py:121-126 | the records of the passing tickers in processing order; `ScreenedSpec` and `ScreenedAppend` characterise it |
| LiquidIncremental.ScreenedAppend | filter_liquid_stocks_v2.py:121-126 | screening two lists in turn is screening their concatenation |
| LiquidIncremental.ScreenedSpec | filter_liquid_stocks_v2.py:121-126 | the new results are the check's records of exactly the passing tickers, in processing order |
| LiquidIncremental.Period | filter_liquid_stocks_v2.py:137 | the save period is the interval's absolute value |
| LiquidIncremental.SameRemainderZero | filter_liquid_stocks_v2.py:137 | `idx % save_interval == 0` does not depend on the interval's sign |
| LiquidIncremental.Checkpoints | filter_liquid_stocks_v2.py:136-143 | the periodic saves among the first `n` tickers, one after each position divisible by `save_interval`; `CheckpointsCount` and `CheckpointAt` characterise them |
| LiquidIncremental.CheckpointsCount | filter_liquid_stocks_v2.py:136-143 | after `n` tickers there have been `n / abs(save_interval)` periodic saves |
| LiquidIncremental.CheckpointAt | filter_liquid_stocks_v2.py:136-143 | the `j`-th save holds the state after `(j+1)·abs(save_interval)` tickers |
| LiquidIncremental.RemainingShrinks | filter_liquid_stocks_v2.py:112 | removing more processed tickers filters down the remaining list |
| LiquidIncremental.RemainingAfterSave | filter_liquid_stocks_v2.py:102-143 | for input without repeats, resuming after `n` processed tickers leaves the rest of the first run's remaining list |
| LiquidIncremental.FinalResults | filter_liquid_stocks_v2.py:101-157 | the returned list: the loaded results, then the records of the passing remaining tickers; `FilterByVolumeIncremental` returns it and `ResumeAfterCheckpoint` relates runs by it |
| LiquidIncremental.ResumeAfterCheckpoint | filter_liquid_stocks_v2.py:101-157 | for input without repeats, resuming from any save ends with the same results as the uninterrupted run |
| LiquidIncremental.ResumeAfterCheckpointProcessed | filter_liquid_stocks_v2.py:101-157 | for any input, repeats included, resuming from any save ends with the same processed set as the uninterrupted run |
| LiquidBatched.Batches | filter_liquid_stocks.py:46-47 | the slices `tickers[i:i + batch_size]`; `BatchesSpec`, `BatchAt` and `BatchCount` characterise them |
| LiquidBatched.BatchesSpec | filter_liquid_stocks.py:46-47 | the batches concatenate to the input, are non-empty and at most `batch_size` long, and all but the last are full |
| LiquidBatched.BatchAt | filter_liquid_stocks.py:46-47 | batch `j` is `tickers[j·size : j·size + size]` |
| LiquidBatched.BatchCount | filter_liquid_stocks.py:48 | for non-empty input, the batch count is `(total - 1) // batch_size + 1` |
| LiquidBatched.FrameOf | filter_liquid_stocks.py:64-67 | the frame a ticker is judged on: the whole frame for a one-ticker batch, else `df[ticker]`, missing when that raises; `SingleTickerBatch` states the one-ticker case |
| LiquidBatched.FrameRecord | filter_liquid_stocks.py:69-77 | a record exactly when the frame is non-empty, has `Volume` and a mean of at least `min_volume` |
| LiquidBatched.TickerRecord | filter_liquid_stocks.py:62-81 | a record names its ticker and has `avg_volume >= min_volume` |
| LiquidBatched.ScreenBatch | filter_liquid_stocks.py:50-85 | the ticker loop returns the batch's records |
| LiquidBatched.FilterByVolume | filter_liquid_stocks.py:26-88 | the batch loop returns the concatenated records of all batches |
| LiquidBatched.RecordsSpec | filter_liquid_stocks.py:62-81 | the records are those of exactly the recorded tickers, in batch order |
| LiquidBatched.SingleTickerBatch | filter_liquid_stocks.py:64-65 | a one-ticker batch is judged on the whole downloaded frame |
| LiquidBatched.ConcatSkips | filter_liquid_stocks.py:83-85 | a batch with no records leaves the surrounding batches' records |
| LiquidBatched.FailedBatchSkipped | filter_liquid_stocks.py:83-85 | a failed download adds nothing and later batches are still screened |
| LiquidBatched.BatchInOrder | filter_liquid_stocks.py:62-77 | a batch's records follow its order |
| LiquidBatched.ConcatInOrder | filter_liquid_stocks.py:46-85 | per-batch order gives order over all batches |
| LiquidBatched.ConcatBounds | filter_liquid_stocks.py:72-77 | every record has `avg_volume >= min_volume` |
| LiquidBatched.Screened | filter_liquid_stocks.py:26-88 | the concatenated records of all batches; `FilterByVolume` returns it and `FilterByVolumeSpec` states its order and bound |
| LiquidBatched.FilterByVolumeSpec | filter_liquid_stocks.py:26-88 | the result follows input order and every record has `avg_volume >= min_volume` |
| Volume.Truncate | filter_liquid_stocks_v2.py:70 | `int()` truncates toward zero |
| Volume.TruncateKeepsLowerBound | filter_liquid_stocks_v2.py:67-70 | truncating a mean at least `min_volume` keeps it at least `min_volume` |
| Volume.AverageVolume | filter_liquid_stocks.py:72-75 | the recorded average is at least `min_volume` and is `int()` of the mean, truncated toward zero for either sign |
| Stats.NanMean | filter_liquid_stocks_v2.py:65 | the NaN-skipping mean is missing exactly when every value is NaN |
| Stats.NanMeanBounds | filter_liquid_stocks.py:70 | the NaN-skipping mean lies within bounds of the present values |
| Stats.Min | modules/stock_data.py:183 | the minimum is one of the values and at most each |
| Stats.MeanBounds | modules/stock_data.py:128 | a mean lies between bounds of its values |
| Strings.Strip | modules/stock_data.py:29 | `str.strip` removes exactly the leading and trailing whitespace |
| Strings.StripEmptyIffBlank | modules/stock_data.py:29-31 | a code strips to empty exactly when it is all whitespace |
| Strings.StripIdempotent | modules/stock_codes.py:151 | stripping twice is stripping once |
| Strings.Split | modules/stock_codes.py:151 | `str.split(",")` gives at least one piece, none holding a comma, joining back to the input |
| Strings.SplitJoin | modules/stock_codes.py:151 | splitting the join of comma-free pieces gives the pieces back |
| Strings.ContainsIffOccurs | update_stock_list.py:87 | `pattern in ticker` holds exactly when the pattern occurs at some position |
| Sorting.SortBy | main.py:193 | sorting by date gives a sorted permutation |
| Sorting.SortedUnique | update_stock_list.py:53 | `sorted(unique())` is strictly ascending with the same members |
| Ranking.SmallestSpec | modules/stock_data.py:212 | the selected row indices are the `min(k, n)` smallest by key, ties to the earlier row, in order |

## Left out

- Downloads, files and the database are parameters, not I/O: yfinance, SQLite and its temporary table, the NASDAQ CSV reads, the JSON list, progress and history files, and CSV and chart output.
- `input()` menus, `print`, logging, `time.sleep(0.1)` and the HTML and chart modules are not modelled: they carry no logic.
- Missing price cells are not modelled. A multi-ticker `yf.download` (modules/stock_data.py:52-59) aligns all tickers on one date index, so a ticker can get rows whose prices and volume are NaN; `df[c]` keeps them and the table stores them as NULL. In `pick_stocks` such rows still count in `len(group)`, `mean()` skips them (so an all-NaN 10-day volume is not below 1,000,000 and passes that gate), and every MA20 window holding one is NaN. `PriceData.Bar` holds positive prices and a natural volume, so the model covers only price tables without missing cells. The liquidity screens do model NaN volumes (`Stats.NanMean`).
- Floating point is modelled as exact reals. `round(..., 2)` and the `avg_volume_millions` display field are not modelled.
- Features.VolatilitySq: the volatility is kept squared, because Dafny has no square root; `Features.VolatilityGatesExact` ties it to the Python gates.
- The volatility of 999 for a non-positive mean close is never reached, because prices are positive in the model.
- Time zones (the timezone stripping) and the clock (`datetime.utcnow()`) are not modelled. Today's date and the cutoff instant are parameters; the cutoff's time of day is kept in whole seconds, a fractional second rounded up, which decides the midnight comparison exactly.
- pandas sort stability is left out. Series are sorted by a stable insertion sort, which matters only for rows with equal `(code, date)`, and the table cannot hold those.
- StockCodes.ParseInt: Python `int()` accepts underscores and non-ASCII digits; the model reads optional whitespace, an optional sign and ASCII digits, and a failure is `None`.
- A JSON list file whose `tickers` field is not a list, and a progress file without the expected keys, are not modelled.
- CSV parsing (a literal "NA" read as NaN) is left to the input columns, which are given as present or missing cells.
- yfinance MultiIndex details are abstracted to a whole frame plus a map of per-ticker frames.
- `sample_days` and the `period` string only reach the downloader, so they are not parameters of the model.
- LiquidIncremental.FilterByVolumeIncremental: requires a non-zero `save_interval` unless no ticker remains. With `save_interval` 0 and tickers remaining, the `%` in the loop raises `ZeroDivisionError`, which the model does not represent.
- LiquidBatched.FilterByVolume: requires a positive `batch_size`. Python's `range` raises on zero, and a negative size gives no batches, which is not modelled.
- LiquidIncremental.ResumeAfterCheckpoint: stated for input without repeated tickers, because with repeats a resumed run skips a ticker the first run would have screened twice.
- StockData.PickStocks: `top_k` is accepted and ignored, as in the source.
- StockCodes.GetStockName: the concrete name of any one ticker (such as AAPL) is not proved, because the name map has 116 entries.
- Live downloads in the smoke-test scripts are not modelled.

## Findings

| source | as written | input that shows it | evidently intended | confidence | as-written member | corrected member |
|---|---|---|---|---|---|---|
| modules/stock_data.py:27-41, 63-80; modules/stock_codes.py:11-56 | the download list keeps repeated codes, and normalisation appends a ticker's rows once per listing; the default universe lists AMZN, TSLA, GOOGL and META twice, so the upsert's INSERT hits the `(code, date)` primary key | default universe on an empty database with one AMZN bar returned | each ticker's rows are staged once, so the upsert succeeds | not executed | StockData.RepeatedTickerRepeatsKeys, StockCodes.DefaultUniverseFailsUpsert, StockData.DuplicateAmznFailsUpsert | StockData.NormalisedOnceDistinct |
