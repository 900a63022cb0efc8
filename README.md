# YfinanceDownloader sync engine, modelled in Dafny

This project models the parts of YfinanceDownloader that keep its two price
stores in sync with the provider. The stores are a daily CSV file and an
hourly CSV file of nine-column bars. It also models the discrete steps of the
feature generator that reads the daily store. The model works over abstract
values:

* a bar is a `Row` (ticker, interval label, time, five price cells, integer
  volume);
* a time is an integer number of seconds in UTC;
* prices are opaque integers;
* a provider response is a `Frame` of named columns holding one `Cell` per bar;
* the provider itself is a function from a `Request` to an optional `Frame`;
* a store is a `Store.CsvFile` object whose presence flag, header and rows the
  engine updates in place;
* pauses of the rate limiter are `Paused` events in a log, next to the
  `Requested` events.

Modules, following the program's structure:

* `Bars`: the shared data model. It holds cells, granularities, rows, frames
  and the store schema.
* `Text`: the ASCII string operations the engine uses: `strip`, `lower`,
  `upper`, substring test, integer rendering.
* `Chunks`: `_chunked` and how it relates to concatenation.
* `Store`: the CSV store as a class. Its operations create the file with a
  header, append rows and rewrite the file.
* `Formatter`: `format_daily_data` and `format_hourly_data`. The ordered rules
  classify column names, a missing required column gives no rows, and a
  formatted row is stamped with the ticker and interval in the fixed schema.
* `Planning`: the configuration constants and the two update targets. It
  holds the initial hourly clamp, the incremental window, provider requests
  and the log of requests and pauses with its limiter invariant.
* `Watermark`: `load_latest_per_ticker`, the latest time per normalised
  symbol, read chunk by chunk.
* `Sync`: `download_ticker_data`, `initial_download` and `update_data`. It
  covers their loops, their counters and the strictly-newer append filter.
* `Reconcile`: `has_special_chars`, the screener filter of
  `load_nasdaq_screener` and `reconcile_stocks`. That means its three change
  lists, the removal rewrite and the download of added symbols.
* `Features`: the part of `generate.py` that is not numerical analysis:
  * `obv`;
  * `filter_active_tickers`;
  * the stale-symbol exclusion;
  * `add_lag_features`, over a `DataFrame` class whose frame is updated in
    place;
  * the critical-column drop.

Loops and state changes are methods. Each method is proved equal to a
specification function of its inputs and old state. The properties the
program promises are lemmas about those functions.

## Model

| member | source | states |
|---|---|---|
| Bars.Schema | downloader.py:344-371 | Both store headers have nine columns: `ticker`, `interval`, then the store's own time column. |
| Bars.DayStartBounds | downloader.py:233 | Keeping only the date of a bar gives the midnight that starts its day: a multiple of a day, at most a day before it. |
| Chunks.Chunked | downloader.py:109-112 | Every chunk is non-empty and at most `size` long. Every chunk but the last has exactly `size` elements. There are no chunks exactly when the input is empty. A negative size gives no chunks, as `range` with a negative step does. |
| Chunks.ChunkedFlatten | downloader.py:109-112 | Concatenating the chunks gives back the input. |
| Chunks.FlattenSnoc | downloader.py:109-112 | Concatenating one more chunk extends the concatenation by that chunk. |
| Store.CsvFile.Absent | downloader.py:345 | A path with no file has no header and no rows. |
| Store.CsvFile.Holding | downloader.py:454 | An existing file holds its header and rows. |
| Store.CsvFile.CreateWithHeader | downloader.py:345-371 | Writing an empty frame creates the file with the header and no rows. |
| Store.CsvFile.Append | downloader.py:386 | Appending without a header keeps the header and puts the new rows after the old ones. |
| Store.CsvFile.Rewrite | downloader.py:579-589 | Rewriting keeps the header and replaces the rows. |
| Text.Strip | downloader.py:210 | The result neither starts nor ends with whitespace. |
| Text.TrimStartDrops | downloader.py:210 | `lstrip` keeps a suffix of its input and drops only whitespace in front of it. |
| Text.TrimEndDrops | downloader.py:210 | `rstrip` keeps a prefix of its input and drops only whitespace after it. |
| Text.StripDrops | downloader.py:210 | `strip` keeps one contiguous stretch of its input and drops only whitespace on either side of it. |
| Text.StripIdempotent | downloader.py:438 | Stripping twice is stripping once. |
| Text.StripUpper | downloader.py:438 | Stripping and upper-casing commute, so the order of `strip().upper()` does not matter. |
| Text.UpperIdempotent | downloader.py:438 | Upper-casing twice is upper-casing once. |
| Text.AbsentCharNotContained | downloader.py:210-224 | A name lacking one character of a pattern does not contain the pattern. |
| Text.IntToStringInjective | generate.py:248 | Distinct integers render differently. |
| Text.SignPrefix | generate.py:248 | A rendering starts with `-` exactly for a negative integer. |
| Formatter.SchemaFollowsRequired | downloader.py:228-250 | The store header is ticker, interval and the seven required columns in rule order. |
| Formatter.ClassifyIsFirstMatchingRule | downloader.py:208-224 | A normalised name is classified as column `c` exactly when `c`'s rule matches and no earlier rule does. The order is time, adj close, close, high, low, open, volume. |
| Formatter.UnmappedIffNoRule | downloader.py:208-224 | A name is left unmapped exactly when no rule matches it. |
| Formatter.AdjCloseNeverClose | downloader.py:215-218 | A name containing both `adj` and `close` never becomes `Close`. It becomes `Adj Close` unless the hourly time rule claims it first. |
| Formatter.ClassifyLowerName | downloader.py:208-224 | Each canonical name, lower-cased, is classified as itself. |
| Formatter.CanonicalNamesResolve | downloader.py:208-226 | A column already carrying a canonical name keeps that name through the rename. |
| Formatter.NormaliseCanonicalName | downloader.py:210 | Stripping and lower-casing a canonical name gives its lower-case form. |
| Formatter.ColumnMappingAt | downloader.py:208-224 | The mapping holds, at each position, the classification of that column's name. |
| Formatter.FirstIndex | downloader.py:226 | The index found is the first column mapped to `c`. None is found exactly when no column is. |
| Formatter.ResolveIsFirstClassified | downloader.py:226-231 | A required column resolves to the first column classified as it, and is missing exactly when no column is. |
| Formatter.ResolveAll | downloader.py:228-231 | A complete resolution gives every required column one cell per bar. |
| Formatter.ResolveAllFailsIffMissing | downloader.py:228-231 | Resolution fails exactly when some required column is unresolved. |
| Formatter.Formatted | downloader.py:200-250 | The result is empty or has one row per bar. Every row carries the given ticker and the store's interval label. |
| Formatter.MissingColumnGivesNoRows | downloader.py:228-231 | An unresolved required column gives no rows. |
| Formatter.FormattedCells | downloader.py:233-250 | Row `i` holds bar `i` of each resolved column. The daily time is reduced to its date, and a missing volume becomes 0. |
| Formatter.DailyTimesAreDates | downloader.py:233 | Every daily time is a midnight. |
| Formatter.ClassifiedResolves | downloader.py:208-231 | A column classified as `c` makes `c` resolve. |
| Formatter.ResolveSameColumn | downloader.py:226 | With unambiguous names, frames holding the same columns in any order resolve to the same cells. |
| Formatter.SameCellsSameResolution | downloader.py:228-231 | Frames whose required columns hold the same cells resolve alike. |
| Formatter.FormatIgnoresColumnOrder | downloader.py:226-250 | Two responses with the same height and the same set of columns give the same rows, whatever the order of the columns, provided no canonical name is claimed by two different columns (`Unambiguous`). With such a clash the result depends on the order, in pandas as in the model. |
| Formatter.BuildColumnMapping | downloader.py:208-224 | The mapping loop computes the classification of every column. |
| Formatter.FormatData | downloader.py:200-308 | The formatter method returns each row the specification gives. |
| Planning.DownloadRequest | downloader.py:171-182 | The provider is asked for the ticker, granularity and start, with the end one day later than given. |
| Planning.HourlyStart | downloader.py:394 | The hourly start is the later of the start and `end - HOURLY_MAX_DAYS` days. |
| Planning.HourlyStartClamps | downloader.py:394 | The hourly history reaches back at most `HOURLY_MAX_DAYS` days, and starts at the configured start when that is recent enough. |
| Planning.UpdateWindow | downloader.py:482-488 | A window exists exactly when `last + step < now + end_pad`. It starts at `last + step` and ends at `now + end_pad`. |
| Planning.UpdateWindowAsWritten | downloader.py:486-487 | The check as written raises exactly for a store whose times carry a UTC offset; otherwise it gives the window above. |
| Planning.UpdateWindowExcludesWatermark | downloader.py:486-488 | The window starts strictly after the watermark: one day after it for the daily store, one hour for the hourly store. A store is up to date exactly when its watermark is not before `now`. |
| Planning.Slack | downloader.py:408-412 | After a check the counter holds at most one less than the threshold. |
| Planning.CheckLeavesSlack | downloader.py:408-412 | A counter that reached the threshold is reset, so after a check it is within the slack. |
| Planning.LogSnoc | downloader.py:378-412 | One more event either restarts the run of calls or extends it by one, and keeps the runs bounded. |
| Planning.LogCalls | downloader.py:378-406 | A run of calls appends exactly those requests and lengthens the trailing run by their number. |
| Planning.TrailingCalls | downloader.py:378-406 | Calls appended to any log are its last calls, and the calls since the last pause grow by their number. |
| Planning.PauseSnoc | downloader.py:408-412 | A pause adds no call and resets the counter. |
| Planning.Throttled | downloader.py:406-412 | One limiter step keeps the log as a prefix, appends exactly the given calls, and leaves the counter at 0 when it reached the threshold and at the old count plus the calls otherwise. |
| Planning.ThrottledKeepsLimits | downloader.py:406-412 | A limiter step that starts within the slack keeps the counter within it, keeps every run of calls within `slack + calls`, and keeps every pause at `PAUSE_DURATION_SECONDS`. |
| Planning.ThrottledPausesFollowCalls | downloader.py:406-412 | With a threshold of at least one, a limiter step that starts within the slack pauses only right after a call. |
| Planning.CallsAddNoPause | downloader.py:378-406 | Calls add no pause, so every pause keeps its duration. |
| Planning.NoPauseAllRequests | downloader.py:378-412 | In a log without pauses every event is a counted call. |
| Planning.ManyRequestsMeanAPause | downloader.py:408-412 | A log with at least `PAUSE_AFTER_BATCHES` calls whose trailing run is within the slack has paused. |
| Watermark.KeyNormalised | downloader.py:438 | Keys are stripped and upper-cased. Normalising or upper-casing a key again gives it back. |
| Watermark.HasStampSnoc | downloader.py:436-441 | One more row adds its key to the keyed rows exactly when its time is present. |
| Watermark.LatestOfKeys | downloader.py:436-441 | The map has a key exactly when some row with a time normalises to it. |
| Watermark.LatestOfWellFormed | downloader.py:436-441 | The insertion order lists every key of the map exactly once. |
| Watermark.LatestOfBounds | downloader.py:439-441 | No row of a key is later than the key's stored time. |
| Watermark.LatestOfAttained | downloader.py:439-441 | The stored time of a key is the time of one of its rows. |
| Watermark.LatestOfIsMax | downloader.py:426-445 | Each key maps to the maximum time over the rows whose normalised ticker is that key. Every key comes from a row. |
| Watermark.LatestKeysNormalised | downloader.py:438 | Every key is already stripped and upper-cased. |
| Watermark.FoldConcat | downloader.py:434-441 | Folding two parts one after the other is folding their concatenation. |
| Watermark.FoldChunksFlatten | downloader.py:434-441 | Folding chunk by chunk is folding the concatenated chunks. |
| Watermark.ChunkedReadIsWholeRead | downloader.py:434-441 | Reading the file in chunks of any positive size gives the map of the whole file. |
| Watermark.ObserveRow | downloader.py:438-441 | One row is merged into the map as the specification says. |
| Watermark.ReadChunk | downloader.py:436-441 | The loop over one chunk leaves the fold of that chunk. |
| Watermark.LoadLatestPerTicker | downloader.py:426-445 | The map is the fold of the whole file, or empty when the file is missing. |
| Sync.Download | downloader.py:171-197 | A response is given exactly when the provider answered with non-empty data, and then it is that data. |
| Sync.Fetched | downloader.py:382-388 | Every formatted row of a download carries the requested ticker and the granularity's label. |
| Sync.FetchAndAppend | downloader.py:382-391 | The store gains exactly the formatted rows of the download. The count added is their number, and failure means the download gave nothing. |
| Sync.InitRequestsFor | downloader.py:382-399 | Each ticker makes two calls for itself, daily then hourly. |
| Sync.InitRequests | downloader.py:378-412 | The initial download makes two calls per ticker. |
| Sync.InitRequestsCover | downloader.py:378-399 | Call `2i` is ticker `i`'s daily history from the start. Call `2i+1` is its hourly history from the clamped start. Both end one day after `end`. |
| Sync.AppendedBy | downloader.py:382-406 | Rows appended to a store all carry its interval label. |
| Sync.FailuresOf | downloader.py:390-405 | There are no more failures than calls. |
| Sync.FailuresAreFailedDownloads | downloader.py:390-405 | A failure is recorded exactly for each call whose download gave nothing, with its ticker and granularity. |
| Sync.AppendedByConcat | downloader.py:378-406 | The rows appended by consecutive calls are the concatenation of each call's rows. |
| Sync.FailuresOfConcat | downloader.py:378-406 | The failures of consecutive calls are the concatenation of each call's failures. |
| Sync.AppendedByPair | downloader.py:382-406 | For one ticker the daily store gets the daily call's rows and the hourly store the hourly call's rows. Failures are listed daily first. |
| Sync.InitTicker | downloader.py:380-406 | One ticker's daily rows go to the daily store and its hourly rows to the hourly store, and each failed download is reported. |
| Sync.InitLog | downloader.py:378-412 | The log of an initial download holds exactly the initial calls, in order. |
| Sync.InitLogLimits | downloader.py:378-412 | That log never has more than `PAUSE_AFTER_BATCHES + 1` calls between pauses, ends within the slack, pauses only for `PAUSE_DURATION_SECONDS`, and for a threshold of at least one pauses only right after a call. |
| Sync.LogAndThrottle | downloader.py:406-412 | The log becomes the limiter step of the calls: they are logged, and a count that reaches the threshold logs one pause and resets to 0. The returned count is the calls since the last pause. |
| Sync.DownloadAll | downloader.py:373-412 | Both stores gain exactly the rows of the initial calls and the failures are reported. The log is exactly the ticker-by-ticker limiter log, with the limits above. |
| Sync.InitialDownload | downloader.py:316-418 | A dry run changes nothing. Otherwise a missing store is created with its schema, then both stores gain the rows of the initial calls and the log is exactly the limiter log, with its limits. |
| Sync.KnownTickers | downloader.py:461-462 | The given tickers are kept exactly when their upper-cased form is in the map. |
| Sync.VisitedAreKnown | downloader.py:461-464 | Only tickers the watermark map knows are visited. Without a ticker list, exactly its keys are. |
| Sync.UpdateRequest | downloader.py:482-491 | A known ticker with a window is called from `last + step` to one day after `now + end_pad`. A ticker that is unknown or up to date makes no call. |
| Sync.NewerThan | downloader.py:503-504 | The filter keeps no more rows than it is given. |
| Sync.NewerThanIff | downloader.py:503-504 | A row is kept exactly when its time is present and strictly after the watermark. |
| Sync.NewerThanCount | downloader.py:503-515 | The number kept is the number of rows strictly newer than the watermark. |
| Sync.NewerThanPrefixCount | downloader.py:503-504 | Over every prefix the rows kept number the newer rows of that prefix. |
| Sync.NewerThanSuffix | downloader.py:503-504 | For rows ordered at the watermark, the filter keeps exactly the suffix after it. |
| Sync.NewerThanPrefixSuffix | downloader.py:503-504 | Over every prefix of rows ordered at the watermark, the filter keeps the part after it. |
| Sync.DailyBars | downloader.py:503-504 | A run of daily bars has one bar per day, in order. |
| Sync.NewerThanExample | downloader.py:503-515 | With the watermark at day 10 and a response for days 10 to 15, days 11 to 15 are kept: 5 rows. |
| Sync.TickerUpdate | downloader.py:482-513 | Every row appended for a ticker is that ticker's, and strictly newer than its watermark. |
| Sync.UpdateRequests | downloader.py:478-515 | No more calls are made than tickers are visited. |
| Sync.UpdateRequestsSpec | downloader.py:478-515 | Every call is for a visited known ticker and starts inside its window. Every visited ticker with a window gets exactly its call. |
| Sync.UpdateSnoc | downloader.py:480-515 | One more ticker adds its own rows and its own call, if any. |
| Sync.UpdateAppendedConcat | downloader.py:478-515 | The rows appended over consecutive batches are the concatenation of each batch's rows. |
| Sync.UpdateRequestsConcat | downloader.py:478-515 | The calls over consecutive batches are the concatenation of each batch's calls. |
| Sync.LookupKeyIsKey | downloader.py:482 | A ticker found in the map by its upper-cased form has that form as its key. |
| Sync.UpdateAppendsOnlyNewRows | downloader.py:482-513 | An update never appends a row that is not strictly newer than every row stored before the run for its symbol. So no (ticker, time) stored before the run is appended again. |
| Sync.RepeatedTickerAppendsTwice | downloader.py:459-513 | The watermarks are read once, so a ticker listed twice gets its new rows appended twice. |
| Sync.FoldNeverLowers | downloader.py:439-441 | Folding more rows never removes a key or lowers its time. |
| Sync.WatermarkNeverDecreases | downloader.py:510-513 | After an append, every symbol's watermark is at least what it was. |
| Sync.UpdateTicker | downloader.py:482-515 | One ticker's new rows are appended, their number is counted, and its call is reported. |
| Sync.UpdateBatch | downloader.py:480-515 | One batch appends exactly its tickers' new rows and makes their calls. |
| Sync.UpdateNext | downloader.py:480-515 | One more ticker of a batch extends the store, the count and the calls by that ticker's part. |
| Sync.UpdateLogRequests | downloader.py:478-521 | The batch-by-batch limiter log of an update holds exactly the calls of its batches, in order. |
| Sync.UpdateLogLimits | downloader.py:478-521 | With no batch longer than `k` minus the slack, that log never has more than `k` calls between pauses, ends within the slack, pauses only for `PAUSE_DURATION_SECONDS`, and for a threshold of at least one pauses only right after a call. |
| Sync.UpdateRunLog | downloader.py:478-521 | The log of a whole update walked in batches of `BATCH_SIZE` holds exactly the calls of the visited tickers, has at most `PAUSE_AFTER_BATCHES - 1 + BATCH_SIZE` calls between pauses, ends within the slack, pauses only for `PAUSE_DURATION_SECONDS`, and for a threshold of at least one pauses only right after a call. |
| Sync.RunBatch | downloader.py:478-521 | A batch appends its tickers' new rows after those of the earlier batches, and the log becomes the limiter step of the batch's calls. |
| Sync.UpdateBatches | downloader.py:478-521 | The store gains exactly the new rows of all visited tickers. The log is exactly the batch-by-batch limiter log: their calls in order, at most `PAUSE_AFTER_BATCHES - 1 + BATCH_SIZE` calls between pauses, pauses of the configured length, and for a threshold of at least one no pause without a call before it. |
| Sync.UpdateData | downloader.py:448-523 | A missing store reports the error and changes nothing. A dry run reports the tickers and changes nothing. Otherwise the store gains exactly the rows strictly newer than each visited ticker's watermark, and the log is exactly the batch-by-batch limiter log with the limits above. This is the corrected behaviour, with both sides of the window check in UTC. |
| Sync.UpdateRaises | downloader.py:480-487 | The loop as written raises exactly when it visits a ticker with a watermark in a store whose times carry a UTC offset. |
| Sync.HourlyUpdateRaises | downloader.py:437-487 | As written, an update of the hourly store raises exactly when there is a ticker to visit, and the daily store never raises. |
| Sync.HourlyUpdateRaisesExample | downloader.py:437-487 | An hourly store with one AAPL bar at 2024-01-02 14:30:00+00:00, updated for all its tickers, raises. |
| Reconcile.AnyInvalid | config.py:26 | A string is flagged exactly when one of its characters is one of `^ . / - =`. |
| Reconcile.HasSpecialChars | downloader.py:82-86 | A symbol has special characters exactly when it is missing or holds one of `^ . / - =`. |
| Reconcile.SpecialIgnoresCase | downloader.py:553 | Upper-casing a symbol does not change whether it has special characters. |
| Reconcile.Screened | downloader.py:136-142 | The screener keeps no more symbols than rows, and none of them has special characters. |
| Reconcile.ScreenedIff | downloader.py:136-142 | A symbol is kept exactly when some row with a price in the inclusive band carries it and it has no special character. |
| Reconcile.UpperAll | downloader.py:540 | Each screener symbol is upper-cased, in place. |
| Reconcile.CurrentTickers | downloader.py:543-545 | The stored symbols are exactly those of some daily or hourly row. |
| Reconcile.NewSymbols | downloader.py:554-558 | The new symbols are no more than the screener's. |
| Reconcile.NewSymbolsIff | downloader.py:554-558 | A screener symbol is added exactly when it matches no stored symbol case-insensitively. |
| Reconcile.PlanChanges | downloader.py:548-558 | `to_remove` holds the stored, well-formed symbols whose upper-cased form the screener lacks. `special_chars` holds the stored symbols with special characters. |
| Reconcile.PlanPartitionsCurrent | downloader.py:548-553 | The two removal lists are disjoint and stored. Every stored symbol is in one of them or, upper-cased, in the screener. |
| Reconcile.AddsOnlyNewSymbols | downloader.py:554-558 | No added symbol matches a stored one case-insensitively, and every unmatched screener symbol is added. |
| Reconcile.RemoveKeys | downloader.py:574 | The removal keys are exactly the upper-cased removed symbols. |
| Reconcile.Kept | downloader.py:577-580 | The rewrite keeps no more rows than it reads. |
| Reconcile.KeptIff | downloader.py:579-580 | A row is kept exactly when its upper-cased ticker is not a removal key. |
| Reconcile.KeptConcat | downloader.py:577-581 | Filtering chunk by chunk and concatenating is filtering the whole file, in order. |
| Reconcile.KeptNothingRemoved | downloader.py:579-580 | With no row to remove, the rows are kept unchanged and in order. |
| Reconcile.RewriteWithout | downloader.py:577-589 | After the chunked rewrite the store holds exactly the kept rows, in their order, under the same header. |
| Reconcile.ReconciledRows | downloader.py:543-580 | After the rewrite a stored row survives exactly when the screener lists its upper-cased symbol and the symbol has no special character. |
| Reconcile.ReconcileStocks | downloader.py:531-596 | The plan is computed from the screener and both stores, and a dry run stops there. Otherwise both stores are rewritten without the removed symbols when there is something to remove and the daily store exists; the hourly one only if it exists too. Then the added symbols are downloaded as in the initial download: both stores gain their rows, the failures are reported, and the log is exactly the initial-download limiter log, with its limits. |
| Features.ObvDelta | generate.py:128-133 | A rise adds the volume, a fall subtracts it, an unchanged close adds nothing. |
| Features.Obv | generate.py:126-136 | The result has one value per close, and value `i` is the reference value at bar `i`. The first value is 0 and each later one moves from the previous one by exactly one delta. None where the series constructor would refuse them. |
| Features.ObvBounds | generate.py:126-135 | With non-negative volumes, the indicator stays within the volume traded since the first bar. It reaches the top when every close rises and stays at 0 when none moves. |
| Features.CountOf | generate.py:267 | A symbol has no more rows than the frame. |
| Features.LatestDateIsMax | generate.py:268-270 | The latest date of a symbol is a date of one of its rows, and none of its rows is later. It is missing exactly when none of its rows has a date. |
| Features.OfTickers | generate.py:267 | Selecting symbols keeps no more rows than given. |
| Features.OfTickersMembers | generate.py:267-270 | Selecting symbols keeps exactly the rows of the selected symbols. |
| Features.OfTickersCount | generate.py:267-270 | A selected symbol keeps all its rows, and any other keeps none. |
| Features.OfTickersLatest | generate.py:270 | A selected symbol keeps its latest date. |
| Features.FilterActiveIff | generate.py:263-271 | The filter keeps every row of a symbol with at least `min_obs` rows whose latest date, when `last_date` is given, is not before it. It keeps no row of any other symbol. |
| Features.SurvivorsAreRecent | generate.py:268-270 | With `last_date` given, every surviving symbol's latest date is on or after it. |
| Features.ExcludeStaleIff | generate.py:326-335 | The exclusion removes exactly the rows of symbols whose latest date is before `reference - stale_days`, and keeps every row of the others. |
| Features.CountOfAbsent | generate.py:326-335 | A symbol with no rows has none to count. |
| Features.Lookup | generate.py:248 | The column found carries the name asked for. |
| Features.LookupFirst | generate.py:248 | The column found is the first of that name, and none is found exactly when no column has it. |
| Features.CellsNamed | generate.py:248 | A column read from a frame has one cell per row. |
| Features.Shift | generate.py:248 | A shift keeps the length. |
| Features.ShiftLaws | generate.py:248 | Cell `i` of a shift by `lag` is cell `i - lag` where that exists and missing elsewhere. A shift by 0 changes nothing, and two shifts in one direction add up. |
| Features.LastUnderscore | generate.py:248 | In a lag column's name, the underscore before the lag is the last one. |
| Features.LagNameInjective | generate.py:248 | Distinct (column, lag) pairs give distinct column names. |
| Features.SetColumn | generate.py:248 | After an assignment the name holds the assigned cells and the height is unchanged. |
| Features.SetColumnOthers | generate.py:248 | Assigning one column leaves every other name as it was. |
| Features.SetColumnPlaces | generate.py:248 | Assigning keeps every column in its place, and adds one column exactly when the name was new. |
| Features.LagOne | generate.py:247-248 | Lagging one column keeps the height and the column itself. |
| Features.LagOnePresent | generate.py:247-248 | A column that exists still exists after the lags of one column. |
| Features.LagAll | generate.py:246-248 | Lagging keeps the height. |
| Features.LagAllStops | generate.py:246-248 | A missing column with at least one lag ends the call, leaving the lags of the earlier columns in place. |
| Features.LagAllNoLags | generate.py:246-248 | With an explicitly empty lag list no column is read, so the call completes and the frame is unchanged, whatever columns are named. |
| Features.MissingColumnFails | generate.py:246-248 | A missing column fails the call exactly when it has a lag to read, and the frame is left as it was. |
| Features.LagOneLagged | generate.py:247-248 | Each lag column of one column holds that column shifted by its lag. |
| Features.LagOneKeeps | generate.py:247-248 | A column that is none of one column's lag names is untouched. |
| Features.LagAllPresent | generate.py:246-248 | A column that exists still exists after the call. |
| Features.LagAllOk | generate.py:246-248 | When every requested column exists, the call completes. |
| Features.LagAllKeepsName | generate.py:246-248 | A column that is no lag column of the call is untouched. |
| Features.LagAllPair | generate.py:246-248 | Each (column, lag) pair gets the column shifted by the lag. |
| Features.LagAllContent | generate.py:242-249 | When every requested column exists and none is another's lag name, every (column, lag) pair gets the column shifted by the lag and every other column is untouched. |
| Features.DataFrame.constructor | generate.py:242 | A frame object holds the frame it is given. |
| Features.DataFrame.LagColumn | generate.py:247-248 | The inner loop leaves the frame as the one-column specification does. |
| Features.DataFrame.AddLagFeatures | generate.py:242-249 | The frame ends as the column-by-column specification leaves it, with lags `[1, 2, 3, 5, 10]` when none are given. `ok` is false exactly where a missing column is read for its first lag and raises; with an empty lag list nothing raises. |
| Features.PresentColumns | generate.py:390 | The present critical columns are exactly the listed ones that the frame has. |
| Features.CompleteRows | generate.py:393 | The indices kept are increasing, and are exactly the rows with a value in every present critical column. |
| Features.Pick | generate.py:393 | Picking rows gives the cells of those rows, in order. |
| Features.DropMissingCritical | generate.py:393 | The drop keeps every column with its name and place. |
| Features.DropMissingCriticalRows | generate.py:375-393 | After the drop, no row misses a value in a critical column the frame has. The rows kept are exactly the complete ones, in their original order. |

## Left out

- File input and output: CSV reading and writing, `to_hdf`, the header read of `update_data`, and the existence test of the screener file with its `sys.exit`. A store is a `Store.CsvFile` object. The screener is a sequence of `ScreenerRow` values.
- `yf.download` is a function parameter `fetch` from requests to optional frames. A raised exception and an empty answer are both `None`.
- `time.sleep` is a `Paused` event in the returned log.
- `datetime.now()`, `START_DATE` and `END_DATE` are the parameters `now`, `start` and `end`.
- `print` output, the progress reports, dry-run messages, `argparse` and `main` are not modelled.
- Time zones are not modelled: `format_time_column`, `tz_localize`/`tz_convert` and strftime rendering. Times are integer seconds in UTC. The daily formatter's date-only rendering is reduced to the day's midnight. The one place where zones change the outcome, the hourly window check, is listed under "## Findings".
- Sync.UpdateData: it models the update with both sides of the window check in UTC. The source compares a zone-aware hourly watermark with the naive `datetime.now()`, which raises; `Sync.UpdateRaises` models that. The model takes every hourly watermark to be zone-aware, as the engine writes them with a `+00:00` offset. A local clock that is not UTC is not modelled.
- `ensure_flat_columns` is not modelled. Provider columns arrive flat, with string names.
- `get_csv_info` is modelled only as the set of stored symbols. Its minimum and maximum dates are unused by the rest of the engine.
- `parse_price` and the float price band are left out because float parsing is not modelled. A parsed price is an `Option<int>`, compared inclusively against the band.
- `load_daily_data` and the quantile reference date of `generate_features` are left out. The reference date is a parameter of `Features.ExcludeStale`.
- The indicator arithmetic of `generate.py` is floating-point numerics and is left out: `sma`, `ema`, `rsi`, `macd`, `bollinger_bands`, `stochastic_oscillator`, `cci`, `adx`, `atr`, `roc`, `ichimoku`, `add_technical_indicators`, `add_rolling_features`. `obv` is modelled over integer closes and volumes.
- Retries are not modelled: the engine has none, and a failed download simply gives `None`.
- The hourly window of `update_data` is not clamped to `HOURLY_MAX_DAYS`, and the model follows that. The initial download does not filter its appends against a watermark, so no no-duplicates property is claimed for it or for the add step of a reconciliation.
- The configuration is the `Planning.Config` parameter. `DefaultConfig` follows config.py: `HOURLY_MAX_DAYS` is 730 there, where config.example.py has 729. `STALE_TICKER_DAYS` is missing from config.py (config.example.py sets it to 5), so it is a parameter.
- Text.IsSpace: only the ASCII characters `str.isspace` accepts count as whitespace, U+001C to U+001F included. Unicode whitespace such as U+00A0 or U+2028, which `str.strip` also removes, is not stripped. This concerns Formatter.ClassifyName, Watermark.Key, Sync.UpdateRequest, Reconcile.RemoveKeys, Reconcile.Kept and Reconcile.NewSymbols.
- Text.Upper and Text.Lower: only ASCII letters change case. Non-ASCII names are compared as they are.
- Formatter.Resolve: pandas keeps every column a rename maps onto the same canonical name. The model takes the first such column.
- Formatter.Formatted: a provider column already named `ticker` or `interval` makes `df.insert` raise. The model does not model that case.
- Watermark.Observe: rows without a time are skipped. pandas would let a NaT maximum make the comparison false.
- Watermark key order: keys are kept in first-seen order per row. pandas groups each chunk in sorted order, so its insertion order can differ, though the map is the same.
- Watermark.LoadLatestPerTicker: the symbol `NA`, which pandas reads as NaN, is not modelled as a missing symbol. It is an ordinary string.
- Reconcile.CurrentTickers and Reconcile.PlanChanges: a stored symbol that pandas reads as NaN (such as `NA`) reaches `t.upper()` in the plan as a float and raises `AttributeError`. The model treats it as an ordinary string, so that reconciliation is modelled as completing.
- Sync.UpdateAppendsOnlyNewRows: the no-duplicates promise holds against the rows stored before the run only. The index is not refreshed during the run, so a ticker list naming a symbol twice appends its new rows twice, in the source and in the model (Sync.RepeatedTickerAppendsTwice).
- Sync.UpdateData: an empty ticker list behaves as no list, as in the source. The lookup uses `Upper(ticker)` without stripping, as the source does.
- Sync.UpdateData: a formatter rejection and a filter that leaves nothing append nothing, and this update records no failures.
- Sync.UpdateBatches: requires a non-zero `BATCH_SIZE`, because `range` with step 0 raises. A negative size walks no tickers, as `range` does.
- Sync.DownloadAll: the limiter bound is stated as at most `PAUSE_AFTER_BATCHES + 1` calls between pauses, because the counter rises by 2 before each check.
- Reconcile.RewriteWithout: a store holding only its header is rewritten with its header and no rows. What pandas does when a file yields no chunk to concatenate is not modelled.
- Features.Obv: it returns `None` where `pd.Series` would raise on a length mismatch.
- Features.Lookup: with duplicate column names it takes the first, where pandas would return all of them.
- Features.LagAllContent: it assumes no requested column is itself the lag name of a requested column (`NoClash`). Without that assumption, a later assignment may overwrite an earlier lag column.
- Features.FilterActiveTickers: a symbol's latest date skips rows without a date (NaT).
- Features.FilterActiveTickers and Features.ExcludeStale: `groupby` drops rows whose symbol is NaN, for instance the symbol `NA` as pandas reads it. The model treats every symbol as an ordinary string, so those rows are grouped like any other.

## Findings

| source | as written | input that shows it | evidently intended | confidence | as-written member | corrected member |
|---|---|---|---|---|---|---|
| downloader.py:486-487 | The hourly watermark comes from `pd.to_datetime` on the stored `+00:00` strings (line 437), so it is zone-aware. `end_time` is the naive `datetime.now() + end_pad` (line 472). `start >= end_time` then raises `TypeError` at the first hourly ticker with a watermark. | An hourly store with one row `AAPL` at `2024-01-02 14:30:00+00:00`, updated with no ticker list. | Both sides of the comparison in UTC, so that the window `[last + 1h, now + 1h)` is checked. | not executed; high (from the pandas rule against ordering aware and naive times) | Sync.HourlyUpdateRaises | Sync.UpdateData |
