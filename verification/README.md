# financial: a Dafny model of the stock data manager and the backtester

This project models the sequential logic of the `financial` repository in Dafny and proves
properties of it. The repository has two packages:

- `stock_data_manager` keeps one CSV file of daily bars per stock symbol up to date. It
  plans an incremental download, merges the new bars into the cached ones with an "append"
  or an "update" strategy, writes the result back, and runs a batch of symbols from the
  command line.
- `stock_analyzer` labels bars with RSI-threshold or moving-average-crossover signals,
  replays the signals in an all-in/all-out trade simulator, and applies an entry-check rule.

The modules follow the source files:

| module | file | what it holds |
|---|---|---|
| `Wrappers` | wrappers.dfy | `Option` and `Result` |
| `Seqs` | seqs.dfy | small facts about slices and concatenation, cited by the proofs |
| `Bars` | bars.dfy | bars (date, open, high, low, close, volume; a missing value is `None`), series, and a series read as a date → bar map in which a later row overrides an earlier one |
| `Merge` | merge.dfy | `AppendMergeStrategy.merge` and `UpdateMergeStrategy.merge` |
| `Config` | config.dfy | the `StockConfig` request record and its defaults |
| `StockDataManager` | manager.dfy | `_get_filepath`, `_calculate_start_date`, `download_and_save`, `download_multiple` |
| `Backtest` | backtest.dfy | RSI and SMA labelling, the crossing status, `TradesMixin.trade` |
| `Analyzer` | analyzer.dfy | `check_asset`, the entry-check rule |
| `Cli` | cli.dfy | `SymbolsLoader.from_cli`, the text branch of `SymbolsLoader.from_file`, `CLI.run` |

Dates are day numbers. The source compares `YYYY-MM-DD` strings, which orders years
1000–9999 the same way. Prices, volumes and money are `real`. "Now" is a `today` parameter.
The CSV files become a map from path to series. The downloader is a function parameter that
returns `None` where the source raises. The writer's failures are a predicate on the path.

Behaviour of the code that may surprise:

- The update strategy returns exactly what the append strategy returns. `existing.update(new)`
  patches the caller's frame, but the following `duplicated(keep="last")` still keeps the
  downloaded row for every shared date, missing cells included. The patch is visible only
  in the caller's `existing` frame, which `UpdateMerge` returns as `patched`.
- The bootstrap window is `10 * 365` days, not ten calendar years.
- A cached file with no rows is not treated as "no data". When the cache is not bypassed,
  `existing_data.index.max()` is `NaT` and its `strftime` raises, so `download_and_save`
  fails for that symbol (`LastDateUndefined`).
- The reported `initial_amount` is always 10000, and the total return is measured against
  10000, whatever initial amount the simulation started with.
- `DataFrame.update` re-indexes the download on the cached index. That raises when the
  download repeats a date and its index is not the cached index itself, so the update
  strategy can fail (`DuplicateLabels`) where the append strategy cannot. A download whose
  index equals the cached index is not re-indexed: it patches row by row, even with
  repeated dates. This is `DataFrame.update` as pandas 1.x and 2.x write it, aligning the
  download with `other.reindex(self.index)`; a pandas release that checks the download's
  labels differently would raise in other cases.
- In `run`, the failure count is `len(symbols) - success_count`. The successes are counted
  over the results dict, whose keys are the distinct symbols. A symbol listed twice that
  succeeds therefore also adds one to the failures. `Cli.Run` models this as written.

## Model

| member | source | states |
|---|---|---|
| `Bars.AscendingDeterminedByMap` | src/stock_data_manager/strategies/append_merge.py:12 | two series sorted by strictly increasing date that read as the same date → bar map are the same series, so `sort_index()` of a duplicate-free series is determined by its rows |
| `Bars.AsMapOfDistinct` | src/stock_data_manager/strategies/append_merge.py:11 | in a series whose dates are distinct, reading it as a map finds every row at its own date |
| `Merge.DedupKeepLast` | src/stock_data_manager/strategies/append_merge.py:11 | dropping every row whose date occurs again further down leaves distinct dates and only input rows, and keeps the date → bar reading in which the last row of each date wins |
| `Merge.SortByDate` | src/stock_data_manager/strategies/append_merge.py:12 | sorting a duplicate-free series gives strictly increasing dates and the same date → bar reading |
| `Merge.InsertByDate` | src/stock_data_manager/strategies/append_merge.py:12 | inserting a bar of a new date into a sorted series keeps it sorted, adds only that bar, and adds exactly that date → bar entry |
| `Merge.AppendMerge` | src/stock_data_manager/strategies/append_merge.py:9-12 | the merged series has strictly increasing dates; its dates are the union of both inputs' dates; it reads as the cached map overridden by the downloaded map; its length is the size of that union, at most the sum of the input lengths |
| `Merge.AppendMergeKeepsIncoming` | src/stock_data_manager/strategies/append_merge.py:10-11 | for a download with distinct dates, every downloaded bar is in the merged series, so at a shared date the downloaded bar wins |
| `Merge.AppendMergeKeepsUntouched` | src/stock_data_manager/strategies/append_merge.py:10-11 | a cached bar whose date was not downloaded is in the merged series unchanged |
| `Merge.AppendMergeOnlyInputs` | src/stock_data_manager/strategies/append_merge.py:10-11 | every merged bar is a downloaded bar or a cached bar of a date that was not downloaded; a cached bar never survives a clash |
| `Merge.AppendMergeWithEmpty` | src/stock_data_manager/strategies/append_merge.py:10-12 | merging a sorted, duplicate-free series with an empty one, on either side, returns it unchanged |
| `Merge.AppendMergeIdempotent` | src/stock_data_manager/strategies/append_merge.py:10-12 | merging the same download a second time changes nothing |
| `Merge.Patch` | src/stock_data_manager/strategies/update_merge.py:10 | `existing.update(new)` keeps the rows, their order and their dates; a row whose date was not downloaded is unchanged; at a shared date every non-missing downloaded cell overwrites and every missing one keeps the cached cell |
| `Merge.PatchBar` | src/stock_data_manager/strategies/update_merge.py:10 | patching one bar keeps its date; each cell takes the downloaded value when that is present and keeps the cached value when it is missing |
| `Merge.PatchedUnion` | src/stock_data_manager/strategies/update_merge.py:10-12 | after the patch the downloaded rows still override every patched row, so the concatenation reads as the same map as without the patch |
| `Merge.PatchAligned` | src/stock_data_manager/strategies/update_merge.py:10 | `existing.update(new)` on a download whose index is the cached index keeps the length and patches each row, cell by cell, from the downloaded row at the same position |
| `Merge.AlignedPatchedUnion` | src/stock_data_manager/strategies/update_merge.py:10-12 | after that positional patch every patched row's date is downloaded, so the concatenation reads as the same map as without the patch |
| `Merge.UpdateMerge` | src/stock_data_manager/strategies/update_merge.py:9-13 | the update strategy fails exactly when the download repeats a date and its index is not the cached index; otherwise it returns the append merge of the same inputs, and the caller's `existing` keeps its length and comes back patched: for a download with unique dates, cell by cell from the downloaded row of the same date and untouched where the date was not downloaded; for one with repeated dates on the cached index, row by row by position |
| `Merge.MergeWith` | src/stock_data_manager/managers/stock_data_manager.py:67-68 | whichever strategy the manager holds, a merge that returns gives the append merge; only the update strategy raises, and exactly on a download that repeats a date on an index other than the cached one |
| `Config.NewStockConfig` | src/stock_data_manager/models/stock_config.py:6-15 | the symbol and the start date are stored as given; a missing end date becomes today and a given one is kept; a missing interval becomes `"1d"` and a given one is kept |
| `StockDataManager.FilePath` | src/stock_data_manager/managers/stock_data_manager.py:31-32 | a symbol's file is the single segment `<symbol>.csv` appended to the data directory |
| `StockDataManager.FilePathInjective` | src/stock_data_manager/managers/stock_data_manager.py:31-32 | distinct symbols that hold no `/` are stored in distinct files |
| `StockDataManager.MaxDate` | src/stock_data_manager/managers/stock_data_manager.py:41 | `index.max()` of a non-empty series is one of its dates and no date is later |
| `StockDataManager.StartDate` | src/stock_data_manager/managers/stock_data_manager.py:34-43 | with nothing cached, or an empty cache, the download starts `10 * 365` days before today; otherwise it starts the day after the latest cached date, strictly after every cached bar and without skipping a day |
| `StockDataManager.Refresh` | src/stock_data_manager/managers/stock_data_manager.py:50-75 | a cache that already reaches today is returned with no download and no write; an empty cached file raises before downloading; otherwise a request for the symbol from the planned start date to today is made; a failed download raises and an empty one returns the cache (or the empty download) without writing; the request's start date is the planned start date; after a non-empty download, a non-empty cache under the update strategy whose merge would raise makes the call raise without writing; otherwise the merge of a non-empty cache with the download, or the download alone, is written to the symbol's file and returned, unless the write raises; a write happens only after a non-empty download, and what is written is what is returned |
| `StockDataManager.DownloadAndSave` | src/stock_data_manager/managers/stock_data_manager.py:45-75 | the reader is consulted exactly when `force_full` is off; under `force_full` the cache is ignored; the files change only by a successful write of the returned series to the symbol's own file |
| `StockDataManager.ForceFullIgnoresFiles` | src/stock_data_manager/managers/stock_data_manager.py:45-52 | under `force_full` what the call returns or raises is the same whatever the files hold: that of a refresh with nothing cached |
| `StockDataManager.DownloadAndSaveFrame` | src/stock_data_manager/managers/stock_data_manager.py:45-48 | what a symbol's call returns or raises depends on no file but the symbol's own |
| `StockDataManager.DownloadMultiple` | src/stock_data_manager/managers/stock_data_manager.py:77-88 | the results dict has an entry for exactly the symbols given |
| `StockDataManager.DownloadMultipleLastCall` | src/stock_data_manager/managers/stock_data_manager.py:77-88 | a symbol's entry is the result of the call for its last occurrence, made on the files the symbols before it left behind: `None` where that call raises, its series otherwise, so a symbol listed twice keeps the later result |
| `StockDataManager.DownloadMultipleFrame` | src/stock_data_manager/managers/stock_data_manager.py:77-88 | no file outside the given symbols' files changes |
| `StockDataManager.DownloadMultipleIsolation` | src/stock_data_manager/managers/stock_data_manager.py:77-88 | when no symbol holds a `/`, a symbol listed once gets what processing it alone on the initial files gives: `None` where that call raises, its series otherwise; earlier symbols' successes and failures, and repeats of other symbols, do not reach it |
| `Backtest.RsiLabels` | src/stock_analyzer/backtest.py:76-78 | a bar is `Buy` exactly when its RSI is defined and below 30, `Sell` exactly when it is defined and above 70, and `Hold` otherwise, an undefined RSI included |
| `Backtest.Shift` | src/stock_analyzer/backtest.py:94-95 | `shift(1)` keeps the length, makes the first value missing and moves every other value down one bar |
| `Backtest.SmaLabels` | src/stock_analyzer/backtest.py:92-95 | a bar is `Buy` exactly when both averages are defined there and on the bar before, the short one is above the long one and was at or below it the bar before; `Sell` is the mirror image; every other bar, the first one included, is `Hold` |
| `Backtest.SmaSingleUpwardCross` | src/stock_analyzer/backtest.py:94 | when the short average is at or below the long one up to a bar and above it from there on, that bar is the only `Buy` |
| `Backtest.SmaBuyNotRepeated` | src/stock_analyzer/backtest.py:94 | the bar after a `Buy` is never a `Buy` |
| `Backtest.CrossingStatus` | src/stock_analyzer/backtest.py:97-109 | an empty frame is neutral; otherwise the status is bullish exactly when the last bar is an upward cross, bearish exactly when it is a downward cross, and neutral exactly when it is neither |
| `Backtest.Step` | src/stock_analyzer/backtest.py:13-36 | one loop iteration keeps the ledger sound: the round trip's starting cash is positive, all of it is cash while flat, and while long the shares cost exactly that cash and no cash is left; a `Buy` while flat spends all the cash on shares at the row's price, dated at the row, keeping the starting cash and the trades; a `Sell` while long turns the shares into cash at the row's price, makes that the new starting cash, and records one trade closed at the row; every other row (`Hold`, `Buy` while long, `Sell` while flat) changes nothing |
| `Backtest.Replay` | src/stock_analyzer/backtest.py:13-36 | the loop over any rows with positive prices ends in a sound ledger |
| `Backtest.Liquidate` | src/stock_analyzer/backtest.py:38-51 | after the loop the ledger is flat; an open position adds one trade closed at the last row's date and price, and the final amount is the shares times that price; a flat ledger is unchanged |
| `Backtest.RoundTrip` | src/stock_analyzer/backtest.py:17-32 | shares bought all-in for a basis at one price and sold at another return the basis times the price ratio; profit over basis is the ratio minus 1; the profit is positive exactly when the sale price is above the purchase price |
| `Backtest.CloseTradeFacts` | src/stock_analyzer/backtest.py:23-33 | a recorded trade's profit is proceeds minus starting cash, its return is the relative price change, and it made a profit exactly when it sold higher than it bought |
| `Backtest.SellBalanced` | src/stock_analyzer/backtest.py:23-36 | selling keeps the books balanced after resetting the starting cash to the proceeds: profits add up to the change of the starting cash, which is the initial cash compounded over the trades' price ratios |
| `Backtest.StepBalanced` | src/stock_analyzer/backtest.py:13-36 | every loop iteration keeps the books balanced |
| `Backtest.ReplayBalanced` | src/stock_analyzer/backtest.py:13-36 | after the loop the profits so far add up to the current starting cash minus the initial cash |
| `Backtest.LiquidateBalanced` | src/stock_analyzer/backtest.py:38-51 | the forced sale, whose basis `initial_amount / q * q` is the starting cash itself, keeps the books balanced |
| `Backtest.ReplayWithoutBuy` | src/stock_analyzer/backtest.py:13-36 | without a `Buy` row the loop never leaves its starting state |
| `Backtest.ReplayOpensOnBuy` | src/stock_analyzer/backtest.py:17-23 | after a `Buy` row there is an open position or a recorded trade, and the trades plus the open position never outnumber the `Buy` rows |
| `Backtest.StepOrdered` | src/stock_analyzer/backtest.py:17-36 | a row dated after all earlier ones keeps the trades non-overlapping: each closes no earlier than it opens, and the next opens after it closes |
| `Backtest.ReplayOrdered` | src/stock_analyzer/backtest.py:13-36 | on rows in date order the loop's trades never overlap and an open position opened after the last trade closed |
| `Backtest.StepTraced` | src/stock_analyzer/backtest.py:17-36 | a position opens only at a `Buy` row's date and price, and a trade closes only at a `Sell` row's date and price |
| `Backtest.ReplayTraced` | src/stock_analyzer/backtest.py:13-36 | every trade of the loop bought at a `Buy` row and sold at a `Sell` row, and an open position was bought at a `Buy` row |
| `Backtest.FinishTraced` | src/stock_analyzer/backtest.py:38-51 | after the forced sale every trade bought at a `Buy` row and sold at a `Sell` row or at the last row |
| `Backtest.Finish` | src/stock_analyzer/backtest.py:13-51 | the loop followed by the forced sale always ends flat and sound |
| `Backtest.FinishCounts` | src/stock_analyzer/backtest.py:13-51 | without a `Buy` row there is no trade and the money is unchanged; with one there is at least one trade; there are never more trades than `Buy` rows |
| `Backtest.FinishBalanced` | src/stock_analyzer/backtest.py:13-51 | the final books balance |
| `Backtest.FinishOrdered` | src/stock_analyzer/backtest.py:13-51 | on rows in date order the finished trades never overlap |
| `Backtest.CountProfitable` | src/stock_analyzer/backtest.py:57 | the number of winning trades is at most the number of trades, equals it exactly when every trade made a profit, and is 0 exactly when none did; a single trade counts 1 exactly when it made a profit |
| `Backtest.CountProfitableConcat` | src/stock_analyzer/backtest.py:57 | the winning trades of two runs of trades put together are those of the first plus those of the second, so with the single-trade case the count is the number of trades with a positive profit |
| `Backtest.SuccessRate` | src/stock_analyzer/backtest.py:57 | a success rate lies between 0 and 100, is 100 (0) exactly when all (none) of the trades are wins, and scaled back by the number of trades it is 100 times the number of wins |
| `Backtest.Summarize` | src/stock_analyzer/backtest.py:53-69 | the report shows an initial amount of 10000 and the trade count; with no trade both percentages are 0; otherwise the total return is the final amount's change against 10000 in percent, and the success rate is 100 exactly when every trade made a profit and 0 exactly when none did |
| `Backtest.SummarizeRate` | src/stock_analyzer/backtest.py:55-57 | with at least one trade, a hundredth of the reported success rate is the number of trades with a profit over the number of trades |
| `Backtest.Simulate` | src/stock_analyzer/backtest.py:7-69 | without a `Buy` row there is no trade, the money is unchanged and both percentages are 0; a trade is made exactly when some row is a `Buy`, never more than there are `Buy` rows; the profits add up to the final amount minus the initial cash; every trade bought at a `Buy` row and sold at a `Sell` row or the last row; on rows in date order trades never overlap |
| `Backtest.RsiBacktest` | src/stock_analyzer/backtest.py:72-82 | the RSI backtest makes a trade exactly when some bar's RSI is below 30 |
| `Backtest.SmaBacktest` | src/stock_analyzer/backtest.py:85-113 | the SMA backtest makes a trade exactly when the short average crosses above the long one somewhere |
| `Analyzer.LastDefinedIsLast` | src/stock_analyzer/analyzer.py:28 | `dropna().iloc[-1]` finds nothing exactly when every value is missing, and otherwise finds a value of the column after which every value is missing |
| `Analyzer.RollingMeanLast` | src/stock_analyzer/analyzer.py:26-27 | the last rolling mean is defined exactly when there are at least `w` rows and none of the last `w` is missing, and then `w` times it is the sum of the last `w` values |
| `Analyzer.CheckAsset` | src/stock_analyzer/analyzer.py:24-37 | the call fails exactly when no RSI value is defined; otherwise it is true exactly when the last defined RSI is below 30, the last close is above the 20-bar close mean, and the last volume is above the 10-bar volume mean, a comparison with a missing value being false |
| `Analyzer.CheckAssetNeedsTwentyBars` | src/stock_analyzer/analyzer.py:26-34 | with fewer than 20 bars the rule never answers true |
| `Analyzer.AboveMeanBeatsEarlier` | src/stock_analyzer/analyzer.py:26-34 | a last value above the mean of a complete window that ends with it beats some earlier value of that window |
| `Analyzer.CheckAssetBeatsRecentBars` | src/stock_analyzer/analyzer.py:24-37 | when the rule fires there are at least 20 bars, the last close beats some close of the 19 bars before it, and the last volume beats some volume of the 9 bars before it |
| `Cli.Strip` | src/stock_data_manager/cli.py:53 | `strip()` never lengthens a string, gives the empty string exactly when the string is all whitespace, and otherwise starts and ends with a character that is not whitespace |
| `Cli.StripIsSlice` | src/stock_data_manager/cli.py:53 | what `strip()` returns is a slice of its input with nothing but whitespace before and after it |
| `Cli.SplitWords` | src/stock_data_manager/cli.py:72 | every word `split()` returns is non-empty and free of whitespace |
| `Cli.SplitAtSpace` | src/stock_data_manager/cli.py:72 | splitting a string around a whitespace character splits each side on its own |
| `Cli.SplitSeparatorBlind` | src/stock_data_manager/cli.py:72 | strings that differ only in which whitespace character stands where split alike |
| `Cli.SplitJoin` | src/stock_data_manager/cli.py:72 | symbols free of separators, joined by commas or whitespace, are split back into exactly those symbols by replacing the commas and splitting on whitespace |
| `Cli.FromCli` | src/stock_data_manager/cli.py:61-73 | every symbol `from_cli` returns is non-empty and holds no comma and no whitespace |
| `Cli.FromCliSeparatorBlind` | src/stock_data_manager/cli.py:72 | commas and whitespace are interchangeable separators: strings that differ only in which separator stands where give the same symbols |
| `Cli.FromCliJoin` | src/stock_data_manager/cli.py:72-73 | symbols free of separators, joined by any commas or whitespace characters, come back in order, each exactly once |
| `Cli.Newlines` | src/stock_data_manager/cli.py:51 | text mode's universal newlines leave no carriage return |
| `Cli.NewlinesLine` | src/stock_data_manager/cli.py:51 | a line without carriage returns ended by `"\n"`, `"\r\n"` or a lone `"\r"` and followed by text that does not start with `"\n"`, reads as the line and exactly one newline, the rest being read on its own |
| `Cli.NewlinesJoin` | src/stock_data_manager/cli.py:51 | symbols joined by any of the three line ends read as the same symbols joined by newlines |
| `Cli.NewlinesPlain` | src/stock_data_manager/cli.py:51 | text without a carriage return is read exactly as written |
| `Cli.NewlinesConcat` | src/stock_data_manager/cli.py:51-54 | text that ends with a newline translates the same on its own as in front of more text |
| `Cli.LinesCover` | src/stock_data_manager/cli.py:54 | the lines `for line in f` yields, put back together, are the whole text |
| `Cli.LinesConcat` | src/stock_data_manager/cli.py:54 | text that ends with a newline splits into its own lines, followed by the lines of what comes after it |
| `Cli.KeepLines` | src/stock_data_manager/cli.py:52-56 | the line filter keeps at most as many symbols as there are lines |
| `Cli.KeepLinesMembers` | src/stock_data_manager/cli.py:52-56 | the symbols kept are exactly the stripped forms of the lines that are non-empty after stripping and do not start with `#` before stripping |
| `Cli.KeepLinesConcat` | src/stock_data_manager/cli.py:52-56 | filtering two runs of lines one after the other keeps the symbols of the first run followed by those of the second |
| `Cli.FromFileText` | src/stock_data_manager/cli.py:50-56 | every symbol read from a text file is non-empty, stripped, and the stripped form of a kept line of the file |
| `Cli.FromFileTextConcat` | src/stock_data_manager/cli.py:50-56 | reading a file is reading its lines one after another: a part that ends with a newline contributes its symbols ahead of the rest |
| `Cli.FromFileTextJoin` | src/stock_data_manager/cli.py:50-56 | symbols without whitespace that do not start with `#`, written one per line, read back in order |
| `Cli.FromFileTextJoinLineEnds` | src/stock_data_manager/cli.py:50-56 | the same symbols written with Windows `"\r\n"` or classic Mac `"\r"` line ends also read back in order, exactly as with `"\n"` |
| `Cli.CommentLineDropped` | src/stock_data_manager/cli.py:55 | a line whose very first character is `#` contributes nothing |
| `Cli.IndentedCommentKept` | src/stock_data_manager/cli.py:53-55 | a `#` line indented by a space is kept, stripped, as a symbol that starts with `#`, because the comment test looks at the unstripped line |
| `Cli.LoadSymbolsFile` | src/stock_data_manager/cli.py:26-58 | a path that does not exist raises `FileNotFoundError`; one that cannot be opened or read as UTF-8 text (a directory, no read permission, undecodable bytes) raises another error; a readable file gives the symbols of its text |
| `Cli.SelectPolicy` | src/stock_data_manager/cli.py:196-201 | strategy `"update"` selects the update merge, and anything else selects the append merge |
| `Cli.ManagerFor` | src/stock_data_manager/cli.py:196-201 | the manager is built on the given data directory with the selected merge strategy |
| `Cli.Run` | src/stock_data_manager/cli.py:170-244 | the exit code is 0 or 1; a symbols file that is missing or cannot be read (the `FileNotFoundError` handler and the generic one), or an empty symbol list, returns 1 before any download, prints no summary and leaves the files as they were; otherwise the summary's successes are the distinct symbols whose result is present and non-empty, successes plus failures equal the number of symbols given, and the exit code is 0 exactly when some symbol succeeded |
| `Cli.SuccessesOfSymbols` | src/stock_data_manager/cli.py:216-230 | counting successes over the results dict counts the distinct symbols given whose result is present and non-empty; there are at most as many as symbols given |
| `Cli.RunSucceedsIffSomeSymbolDoes` | src/stock_data_manager/cli.py:209-233 | for a `-s` list without repeats whose symbols hold no `/`, the run exits with 0 exactly when some symbol, processed on its own against the initial files, would have returned a non-empty series |
| `Cli.BatchSucceedsIffSomeSymbolDoes` | src/stock_data_manager/cli.py:209-233 | for symbols without repeats that hold no `/`, the batch has a success exactly when processing some symbol on its own succeeds |

## Left out

- The CSV reader and writer are left out. The store maps each path to a series, and a written series reads back unchanged.
- Reader errors on malformed files are not modelled.
- A write that fails after writing part of the file is not modelled.
- The pandas CSV branch of `from_file` (cli.py:34-47) is not modelled: it depends on pandas' CSV parsing and column detection. The model reads every existing file through the text branch.
- A symbols file is its content as a `string`. UTF-8 decoding is not modelled. Python's text-mode universal newlines are modelled.
- The yfinance downloader is not part of this model; it is the `download` parameter.
- The RSI of pandas_ta, and the SMAs behind the crossover labels, are left out. Their values come in as `Option<real>` columns.
- The two rolling means of `check_asset` are modelled.
- Analyzer.CheckAsset: does not model that `check_asset` writes the `RSI`, `MM20` and `VolMedia10` columns into the caller's frame (analyzer.py:25-27). The model returns only the answer.
- Printing, logging, argparse configuration, tracebacks, and both packages' `main.py` are plumbing and are left out.
- The factory and the interface classes are wiring only; they are not part of this model.
- `get_data`, `retrieve_data` and the analyzer's thin wrappers are left out: each only calls a modelled operation.
- The rounding of the two report percentages to 2 decimals is presentational and is left out.
- The trades DataFrame of the report is a sequence of `Trade` records.
- The `_setup` methods write their labels into a DataFrame column in place. The model returns the label sequence instead.
- StockDataManager.FilePath: a symbol holding `/` is kept as one segment. pathlib would split it into several segments and normalise away `.` and empty ones, so such a symbol can name another symbol's file (`"./X"` and `"X"`). FilePathInjective, DownloadMultipleIsolation, BatchSucceedsIffSomeSymbolDoes and RunSucceedsIffSomeSymbolDoes therefore only speak of symbols without `/`. Filesystem aliasing (`..`, symbolic links, case-insensitive file systems) is not modelled either.
- The generic exception handler of `run` (cli.py:238-244) is modelled only for errors of opening or reading the symbols file. `download_multiple` catches every per-symbol error, and errors of printing are not modelled.
- In `run`, `-s` passes argparse's list through as given. `from_cli` is modelled on its own and not applied there.
- Bars carry the five OHLCV columns. Other downloaded columns are not modelled; they take part in the merges the same way.
- Backtest.Simulate: requires a positive initial amount and positive prices. Zero or negative prices would make the source divide by zero or hold negative shares, giving float `inf`/`nan` results. Float `inf`/`nan` arithmetic is not modelled. A price is a `real`, so a missing price is not modelled either.
- Backtest.Step: requires a positive price, for the reason given for `Simulate`.
- Backtest.Replay: requires a positive initial amount and positive prices, for the reason given for `Simulate`.
- Backtest.RsiBacktest: requires a positive initial amount and positive closes, for the reason given for `Simulate`.
- Backtest.SmaBacktest: requires a positive initial amount and positive closes, for the reason given for `Simulate`.
- Config.NewStockConfig: an explicit `interval=None` is kept as `None` by the source. Here a missing interval always means the default `"1d"`. The manager never passes an interval.
- Backtest.FinishCounts: states that trades exist exactly when some row is a `Buy`, and that there are never more trades than `Buy` rows. It does not state that the count equals the number of `Buy` rows that find the simulator flat. That number is defined only by running the simulator.
