# Binance price ingestion and downsampling, modelled in Dafny

This project models the core of a price-collection service. The service works in these steps:

- It polls the Binance ticker-price endpoint once per symbol and call.
- A token-bucket rate limiter guards those polls.
- Each response is stored as a raw sample keyed on `(symbol, timestamp)`.
- A per-symbol progress counter stops the polling once a configured quota is reached.
- A resampling pass turns each symbol's raw samples newer than its watermark into one-minute aggregates, holding the mean and the median price.
- The aggregates are stored with conflict skipping, so the first write of a key wins.

The modules follow the source files:

| module | source |
|---|---|
| `Common` | shared types: symbols, timestamps as whole UTC seconds, errors as a `Result` |
| `Numeric` | the decimal-text parsing that `pd.to_numeric` performs on prices |
| `Stats` | mean and standard median over exact `real` prices |
| `Resample` | `DataTransformer._downsample_data` (transformation/transformer.py) |
| `Transformer` | `DataTransformer.transform_data` and its per-symbol loop |
| `TransformerCases` | the expected outputs of tests/test_transformer.py, proved of the model |
| `RawStore` | `RawDataRepository` (database/raw_data_repository.py) |
| `AggregateStore` | `DownsampledDataRepository` (database/downsampled_data_repository.py) |
| `ProgressStore` | `StateRepository` (database/state_repository.py) |
| `RateLimiting` | `RateLimiter` (utils/rate_limiter.py) |
| `Ingestion` | `BinanceIngestionClient.ingest_data` (ingestion/binance_ingestion.py) |

## How the model is set up

- The three tables are in-memory state.
  - The raw table and the aggregate table are sequences of rows with a primary-key invariant (`UniqueRawKeys`, `UniqueKeys`), because the SQL queries need `MAX` and `ORDER BY` over them.
  - The progress table is a `map<Symbol, nat>`.
- Each repository is a class whose methods change that state, and each method's contract states the new state.
  - The inserts and the increment state it through the specification functions `InsertRaw`, `InsertIfAbsent` and `Bumped`.
  - The deletes state the emptied table or map.
  - The read returns `CollectedPoints` and changes nothing.
- A failing commit is a boolean parameter of the method. With it set, the method returns the error and leaves the state as it was, which is the rollback.
- A failing read of the progress counter is a boolean parameter too. `ingest_data` reads the counter outside its `try` (ingestion/binance_ingestion.py:28), so that error is not swallowed: the call ends with `Step.ReadFailed` before taking a permit.
- The pure parts are functions:
  - the watermark query is `FetchUnprocessed`;
  - the resampler is `Downsample`;
  - one step of the ingestion client is `Ingest`;
  - one acquisition of the rate limiter is `Acquire`.

  The methods are proved equal to these functions, and the properties are lemmas about them.
- The environment of one ingestion call is one `Attempt` value. It holds whether the progress read fails, the monotonic clock reading, the capture time, the upstream response (or its failure) and whether each commit fails.
- The rate limiter returns the time it would sleep instead of sleeping.

### Buckets

- `df.resample('1T')` uses pandas' default origin: midnight of the first sample's day. `BucketStart` models it as `origin + ((t - origin) / width) * width`, with `origin = DayStart(MinTime(S))`.
- `BucketStartEpochAligned` proves that this equals the epoch-aligned `(t / width) * width` whenever the width divides a day, as the configured minute does.
- The proof that re-running the transformer leaves the aggregate table unchanged (`RunIdempotent`) relies on that condition. Otherwise two runs could lay out their buckets from different midnights.

### Where the code and the design description disagree (the model follows the code)

- **Non-numeric prices.** The design says they are dropped at resampling time. In the code, `fetch_unprocessed_data` already parses prices strictly (database/raw_data_repository.py:43), so a non-numeric price text raises before `_downsample_data` can coerce it. An empty price text does not raise: the strict parse reads it as missing (NaN), like a payload without a price, and the resampler drops that row.
  - `FetchFailsIff` states when the fetch raises.
  - `StuckStaysStuck` proves that a symbol with a non-empty, non-numeric price text newer than its watermark fails on every pass and never gets another aggregate.
  - The coercion in `_downsample_data` still drops a price that is missing (JSON without `price`, read as NaN).
- **Atomicity of an ingestion cycle.** The design says the raw write and the progress increment happen together or not at all. The code commits them separately.
  - When the progress update fails, the stored row stays uncounted (`Step.UpdateFailed`).
  - `Consistent` states what does hold: no symbol's counter exceeds its stored rows.
- **Watermark.** The watermark is the largest aggregated bucket *start*, and the comparison is strict. Rows that arrive late for the latest bucket, later than its start, are therefore fetched again. They land in a bucket whose key is already stored, so the conflict skipping drops them, which is what `TransformSymbolSettles` relies on.

## Model

| member | source | states |
|---|---|---|
| `Numeric.ParseDecimal` | transformation/transformer.py:34 | a price text parses only when it is non-empty and made only of signs, digits and points, and a digit string parses to its decimal value |
| `Numeric.ParseUnsignedAccepts` | transformation/transformer.py:34 | an unsigned text parses exactly when it is digits, or digits, one point and digits |
| `Numeric.ParseAcceptsNumerals` | transformation/transformer.py:34 | a price text parses exactly when it is an optional sign followed by such an unsigned numeral |
| `Numeric.ParseFraction` | transformation/transformer.py:34 | `w.f` parses to the whole part plus the fraction digits over `10^abs(f)`; a leading minus negates it and a leading plus keeps it |
| `Numeric.DecimalValueScaled` | transformation/transformer.py:34 | the value of `w.f` is the value of the digits `wf` with the point dropped, divided by `10^abs(f)` |
| `Numeric.ParseSignedWhole` | transformation/transformer.py:34 | a signed digit string parses to its value, negated by a leading minus |
| `Numeric.ParseNatToDecimal` | database/raw_data_repository.py:43 | printing a whole price and parsing it back gives the same value |
| `Numeric.ParseRejectsNonNumeral` | database/raw_data_repository.py:43 | a text holding a character that cannot occur in a numeral does not parse |
| `Resample.SurvivorsSpec` | transformation/transformer.py:34-38 | the surviving samples are exactly the rows whose price coerces to a number, with their timestamp and symbol, so a non-numeric row contributes to no bucket |
| `Resample.SurvivorsAppend` | transformation/transformer.py:34-38 | `dropna` keeps the row order: the survivors of two concatenated row sequences are the survivors of the first followed by those of the second |
| `Resample.SurvivorsOfOne` | transformation/transformer.py:34-38 | a single row leaves exactly its own sample when its price coerces to a number, and nothing otherwise; with `SurvivorsAppend` this fixes the survivors' order and multiplicity |
| `Resample.FirstSurvivor` | transformation/transformer.py:38-58 | the first survivor, whose symbol stamps every aggregate, is the sample of the first row whose price coerces to a number |
| `Resample.DroppedCountIsNonNumeric` | transformation/transformer.py:37-41 | the logged dropped count (input length minus surviving length) equals the number of non-numeric rows |
| `Resample.BucketStart` | transformation/transformer.py:47 | every timestamp lies in the left-closed bucket `[b, b + width)` it is assigned to, and `b` is on the grid laid out from the origin |
| `Resample.BucketStartIff` | transformation/transformer.py:47 | a timestamp is assigned to the grid bucket starting at `b` exactly when `b <= t < b + width` |
| `Resample.MinTimeAttained` | transformation/transformer.py:47 | the earliest timestamp is that of some sample (and `MinTime` is at most every sample's), so the bucket origin is midnight of the earliest sample's day |
| `Resample.BucketStartEpochAligned` | transformation/transformer.py:47 | when the width divides a day, pandas' day-based bucket start equals the epoch-aligned `(t / width) * width` |
| `Resample.BucketStarts` | transformation/transformer.py:47-52 | the output buckets are strictly ascending, and a start is listed exactly when some surviving sample falls in its bucket, so gap buckets are absent |
| `Resample.PricesInSpec` | transformation/transformer.py:47 | a price is in a bucket's list exactly when some surviving sample in that bucket has it, and it occurs there exactly as many times as surviving samples in that bucket carry it |
| `Resample.Downsample` | transformation/transformer.py:30-63 | the downsample fails, reading the first row of an empty table, exactly when no numeric price survives |
| `Resample.DownsampleSpec` | transformation/transformer.py:47-61 | one record per non-empty bucket, in strictly ascending order, each with the first survivor's symbol and the mean and median of its bucket; every survivor's bucket is present |
| `Resample.DownsampleDistinctKeys` | transformation/transformer.py:55-61 | the records of one downsample have pairwise distinct `(symbol, timestamp)` keys |
| `Resample.DownsampleBounds` | transformation/transformer.py:47 | each record's mean and median lie between the smallest and the largest price of its bucket |
| `Stats.MeanBounds` | transformation/transformer.py:47 | the mean lies between the minimum and the maximum |
| `Stats.MedianBounds` | transformation/transformer.py:47 | the median lies between the minimum and the maximum |
| `Stats.MeanOfPermutation` | transformation/transformer.py:47 | the mean does not depend on the order of the prices |
| `Stats.MedianOfPermutation` | transformation/transformer.py:47 | the median does not depend on the order of the prices |
| `Stats.SingletonStats` | tests/test_transformer.py:56-80 | a bucket with one sample has that price as its mean and its median |
| `Stats.PairStats` | tests/test_transformer.py:152-189 | a bucket with two samples has their midpoint as its mean and its median (the standard median, not the lower one) |
| `TransformerCases.DuplicateTimestamps` | tests/test_transformer.py:152-189 | prices 100 and 110 at 09:00 and 101 and 111 at 09:01 give exactly two aggregates, (09:00, 105, 105) and (09:01, 106, 106) |
| `TransformerCases.NonUniformTimestamps` | tests/test_transformer.py:115-150 | samples at 09:00, 09:05 and 09:10 give exactly three one-sample aggregates; the empty minutes give none |
| `TransformerCases.MultipleSymbolsStampedWithFirst` | tests/test_transformer.py:82-113 | a row naming GOOG is aggregated with the others, and every aggregate is stamped AAPL, the first row's symbol |
| `TransformerCases.InvalidPriceDropped` | transformation/transformer.py:34-41 | on the rows of the `invalid_price_df` fixture (tests/test_transformer.py:41-54, which no test uses), the coercion drops the non-numeric price `ABC` and counts it once, and the other two samples give their own aggregates; the expected values are the model's reading of `_downsample_data`, not a promise of the tests |
| `RawStore.MaxStamp` | database/raw_data_repository.py:33-35 | `MAX(timestamp)` over the aggregates of the symbol: absent exactly when it has none, otherwise one of its timestamps and at least all of them |
| `RawStore.WatermarkSpec` | database/raw_data_repository.py:33-35 | the watermark is the latest aggregate timestamp of the symbol, or the epoch when it has none |
| `RawStore.Select` | database/raw_data_repository.py:30-35 | the `WHERE` clause keeps exactly the rows of the symbol strictly newer than the watermark |
| `RawStore.SortByTimeOrdered` | database/raw_data_repository.py:36 | `ORDER BY timestamp ASC` yields ascending order, strictly ascending when the timestamps are distinct |
| `RawStore.UnprocessedSpec` | database/raw_data_repository.py:26-36 | the watermark query returns exactly the stored rows of the symbol strictly newer than its watermark, strictly ascending by timestamp |
| `RawStore.UnprocessedSymbol` | database/raw_data_repository.py:32 | every row the query returns belongs to the requested symbol |
| `RawStore.ParseRows` | database/raw_data_repository.py:42-43 | strict parsing succeeds exactly when every price text is numeric, empty or missing (an empty text reads as missing), and then it keeps the row order, the timestamps and the symbols |
| `RawStore.FetchFailsIff` | database/raw_data_repository.py:40-44 | the fetch raises exactly when a selected row holds a non-empty, non-numeric price text; an empty text does not raise; nothing newer than the watermark gives an empty result, not an error |
| `RawStore.FetchRows` | database/raw_data_repository.py:39-44 | a successful fetch returns one `(timestamp, price, symbol)` row per selected row, in order, with the parsed price, or a missing one for an absent or empty price text |
| `RawStore.InsertRawSpec` | database/raw_data_repository.py:14-22 | an insert fails exactly on a stored `(symbol, timestamp)` key; otherwise it keeps the key constraint and adds one row of its symbol and none of any other |
| `RawStore.InsertRawUnprocessed` | database/raw_data_repository.py:14-19 | an insert changes no other symbol's unprocessed rows, and the new row is unprocessed exactly when it is newer than its symbol's watermark |
| `RawStore.EmptyTableFetchesNothing` | database/raw_data_repository.py:48-53 | after the table is emptied, the watermark query returns nothing for any symbol |
| `RawStore.RawDataRepository.InsertRawData` | database/raw_data_repository.py:14-24 | adds exactly the row `(symbol, data, timestamp)`; a duplicate key or a failed commit leaves the table unchanged and reports the error |
| `RawStore.RawDataRepository.DeleteAllRawData` | database/raw_data_repository.py:48-57 | empties the table, or on a failed commit leaves it unchanged and reports the error |
| `AggregateStore.InsertIfAbsentExtends` | database/downsampled_data_repository.py:19-24 | stored rows keep their place and their values (first write wins), and every added row comes from the batch |
| `AggregateStore.InsertIfAbsentKeys` | database/downsampled_data_repository.py:20-23 | after the insert a key is stored exactly when it was stored before or some batch record carries it |
| `AggregateStore.InsertIfAbsentStoresNew` | database/downsampled_data_repository.py:19-24 | in a batch with distinct keys, every record whose key was not yet stored is stored as it is |
| `AggregateStore.InsertIfAbsentUnique` | database/downsampled_data_repository.py:20-23 | the conflict-skipping insert keeps the `(symbol, timestamp)` key constraint |
| `AggregateStore.InsertIfAbsentAllPresent` | database/downsampled_data_repository.py:20-23 | a batch whose every key is already stored changes nothing |
| `AggregateStore.InsertIfAbsentIdempotent` | database/downsampled_data_repository.py:20-23 | inserting the same batch twice leaves the same table as inserting it once |
| `AggregateStore.ExecuteInsert` | database/downsampled_data_repository.py:17-24 | a non-empty batch naming a column the mapped table lacks raises before anything is stored, and against a table that maps every column the batch names, the batch is inserted with conflict skipping |
| `AggregateStore.AsMappedInsertFails` | database/models.py:17-24 | with `DownsampledData` as mapped, every non-empty batch raises and nothing is stored |
| `AggregateStore.CorrectedInsertStores` | database/downsampled_data_repository.py:20-24 | with a `median_price` column mapped, the statement is the conflict-skipping insert |
| `AggregateStore.DownsampledDataRepository.InsertDownsampledData` | database/downsampled_data_repository.py:13-30 | the table becomes the conflict-skipping insert of the batch; a failed commit leaves it unchanged and reports the error |
| `ProgressStore.Bumped` | database/state_repository.py:23-37 | an increment makes the symbol's counter the old one plus 1 (1 for a new record) and changes no other counter |
| `ProgressStore.BumpTimesCount` | database/state_repository.py:23-37 | `n` increments raise the symbol's counter by exactly `n` and leave every other counter as it was |
| `ProgressStore.FreshSymbolCount` | database/state_repository.py:23-37 | starting from a symbol without a record, `n` sequential increments make it read `n` |
| `ProgressStore.StateRepository.GetCollectedPoints` | database/state_repository.py:15-21 | returns the stored counter, or 0 for a symbol without a record; a failing query returns the error (the method has no `try`) and changes nothing |
| `ProgressStore.StateRepository.UpdateCollectedPoints` | database/state_repository.py:23-43 | on commit, stores and returns the old counter plus 1 (creating the record at 1); a failed commit leaves every counter unchanged and reports the error |
| `ProgressStore.StateRepository.ResetState` | database/state_repository.py:45-56 | on commit, every symbol reads 0 afterwards; a failed commit leaves every counter unchanged |
| `RateLimiting.Refill` | utils/rate_limiter.py:14-19 | the refilled tokens are the old tokens plus `elapsed * fillRate`, capped at the capacity |
| `RateLimiting.AcquireImmediate` | utils/rate_limiter.py:24-25 | with at least one token after the refill, exactly one is taken and there is no wait |
| `RateLimiting.AcquireWaits` | utils/rate_limiter.py:20-23 | with less than one token, the wait is `(1 - tokens) / fillRate`, lies in `(0, 1/fillRate]`, and the bucket is left empty |
| `RateLimiting.AcquireWaitIff` | utils/rate_limiter.py:20-25 | the caller waits exactly when less than one token is left after the refill |
| `RateLimiting.AcquireInBounds` | utils/rate_limiter.py:14-25 | each acquisition keeps `0 <= tokens <= capacity` when the clock does not go back |
| `RateLimiting.TraceInBounds` | utils/rate_limiter.py:12-25 | any sequence of acquisitions at non-decreasing clock readings keeps the bucket in bounds and never waits a negative time |
| `RateLimiting.TraceThroughput` | utils/rate_limiter.py:12-25 | as written, the number of granted permits is at most the tokens used up plus `fillRate` times the clock span and the total wait; slept time counts twice, so this is not `fillRate` permits per second |
| `RateLimiting.AcquireCreditsWaitTwice` | utils/rate_limiter.py:14-23 | as written, four acquisitions at 1 permit per second from an empty bucket, each starting when the previous caller woke, complete by second 2, more than `capacity + fillRate * elapsed` allows |
| `RateLimiting.AcquireCorrected` | utils/rate_limiter.py:14-25 | the corrected acquisition sets the last check to the end of its wait |
| `RateLimiting.CorrectedAccounting` | utils/rate_limiter.py:14-25 | a corrected acquisition keeps the bucket within bounds, never waits a negative time, and leaves at most the tokens before it plus the refill up to its completion, minus one |
| `RateLimiting.CorrectedThroughput` | utils/rate_limiter.py:12-25 | over any corrected trace, the permits granted are at most the tokens used up plus `fillRate` times the time from the first last check to the last completion |
| `RateLimiting.CorrectedRateBound` | utils/rate_limiter.py:12-25 | for the corrected limiter, the permits granted up to the completion of the last one number at most `capacity + fillRate * elapsed` |
| `RateLimiting.RateLimiter.constructor` | utils/rate_limiter.py:5-10 | a new limiter has `tokens = capacity = fill_rate` and the current clock reading as its last check |
| `RateLimiting.RateLimiter.Enter` | utils/rate_limiter.py:12-25 | `__enter__` sets the last check to now and leaves the tokens and the wait that `Acquire` gives, keeping the bounds invariant |
| `RateLimiting.RateLimiter.Exit` | utils/rate_limiter.py:27-28 | `__exit__` changes no state |
| `Ingestion.IngestReadFails` | ingestion/binance_ingestion.py:28 | a failing read of the progress counter propagates: the call ends with that error before the quota check, takes no permit and changes nothing |
| `Ingestion.IngestAtQuota` | ingestion/binance_ingestion.py:28-30 | when the progress read succeeds and the count is at or over the quota, a call makes no request, stores nothing, counts nothing and takes no permit |
| `Ingestion.IngestTakesOnePermit` | ingestion/binance_ingestion.py:32 | when the progress read succeeds and the count is below the quota, a call takes exactly one rate-limiter permit, whatever happens after |
| `Ingestion.IngestRawRow` | ingestion/binance_ingestion.py:35-37 | the raw table gains exactly the row `(symbol, response, capture time)` when the request and the insert succeed, and is unchanged otherwise |
| `Ingestion.IngestProgress` | ingestion/binance_ingestion.py:37-44 | progress rises by exactly 1 when the point is stored and counted, and is unchanged on any swallowed error; other symbols never change |
| `Ingestion.IngestConsistent` | ingestion/binance_ingestion.py:25-44 | a call keeps the raw keys unique, the bucket in bounds, and every counter at most its symbol's stored rows |
| `Ingestion.IngestRunBounded` | ingestion/binance_ingestion.py:28-41 | over any sequence of calls, the progress never passes the quota and rises by at most one per call |
| `Ingestion.BinanceIngestionClient.IngestData` | ingestion/binance_ingestion.py:25-44 | `ingest_data` leaves the stores, the limiter, the outcome and the wait that `Ingest` gives |
| `Transformer.TransformSymbolOutcome` | transformation/transformer.py:18-28 | one iteration ends with: no new data; a non-empty, non-numeric price text; no numeric price; a failed commit; or success. Exactly one applies, and only success changes the table |
| `Transformer.TransformSymbolStores` | transformation/transformer.py:19-24 | an iteration keeps what is stored, adds aggregates of its own symbol only, keeps the key constraint, and on success stores every batch key |
| `Transformer.TransformSymbolIsolated` | transformation/transformer.py:18-28 | an iteration changes neither the watermark nor the fetched rows of any other symbol |
| `Transformer.StuckStaysStuck` | transformation/transformer.py:19-28 | a symbol with a non-empty, non-numeric price text newer than its watermark fails every iteration and stays that way |
| `Transformer.WatermarkRises` | transformation/transformer.py:19-23 | with epoch-aligned buckets, an iteration never lowers its symbol's watermark |
| `Transformer.TransformSymbolSettles` | transformation/transformer.py:19-23 | with a bucket width that divides a day, running the same symbol's iteration again right after it changes nothing |
| `Transformer.RunIdempotent` | transformation/transformer.py:16-28 | with a bucket width that divides a day, a second pass over the same raw table leaves the aggregate table exactly as the first pass left it |
| `Transformer.RunAttemptsAll` | transformation/transformer.py:18-28 | a pass attempts every configured symbol in order, one log entry each, whatever fails |
| `Transformer.RunStores` | transformation/transformer.py:18-28 | a pass keeps what is stored, adds records of configured symbols only, and keeps the key constraint |
| `Transformer.DataTransformer.TransformSymbolData` | transformation/transformer.py:19-28 | one iteration leaves the aggregate table and the log entry that `TransformSymbol` gives |
| `Transformer.DataTransformer.TransformData` | transformation/transformer.py:16-28 | `transform_data` leaves the aggregate table and the log that `Run` gives over the configured symbols |

## Findings

| source | as written | input that shows it | evidently intended | confidence | as-written member | corrected member |
|---|---|---|---|---|---|---|
| utils/rate_limiter.py:14-23 | `__enter__` sets `last_check` to the time before a sleep and then empties the bucket, so the time slept is refilled again at the next call | four calls at rate and capacity 1 from an empty bucket at time `t`, made at `t`, `t + 1`, `t + 1`, `t + 2` as each caller wakes, grant four permits by `t + 2` | the caller is charged for its sleep: `last_check` becomes the end of the sleep, so at most `capacity + fill_rate * elapsed` permits are granted | not executed; high | `RateLimiting.AcquireCreditsWaitTwice` | `RateLimiting.CorrectedRateBound` |
| database/models.py:17-24 | `DownsampledData` maps no `median_price` column, yet the repository inserts records that carry one (database/downsampled_data_repository.py:17-20); SQLAlchemy refuses values for unmapped columns when it compiles the statement | any non-empty batch, such as one record `("BTCUSDT", 09:00, 105, 105)` | the table has a `median_price` column and the batch is inserted with conflict skipping | not executed; medium (depends on SQLAlchemy rejecting unconsumed column names) | `AggregateStore.AsMappedInsertFails` | `AggregateStore.CorrectedInsertStores` |

The rest of the model uses the corrected insert: `DownsampledDataRepository.InsertDownsampledData` is the conflict-skipping insert, and `InsertIfAbsentIdempotent` is proved of it.

The rate limiter is the exception: `RateLimiter.Enter` and `Ingest` keep `Acquire` as written, because the limiter's accounting matters to the ingestion model only through the bounds invariant, which both versions keep. The corrected acquisition is `AcquireCorrected`, and `CorrectedRateBound` is proved of it.

## Left out

- Threads and locks are not modelled: the lock of `StateManager` (utils/state_manager.py) and the lock of `RateLimiter`. Every operation is sequential, and `StateManager` is folded into the progress repository it wraps.
- The clocks are parameters. `time.monotonic` is `Attempt.clock`, and `datetime.now` is `Attempt.captureTime`. `time.sleep` is replaced by the returned wait.
- `RateLimiting.RateLimiter.Enter`: requires a clock reading no earlier than the last check, which the monotonic clock guarantees.
- `RateLimiting.RateLimiter.constructor`: requires a positive rate. With a rate of zero the source's `__enter__` would raise a division by zero, which the model does not represent.
- Prices are exact `real`s. Float rounding of pandas' mean and median is not modelled.
- Timestamps are whole UTC seconds. Sub-second resolution and time-zone conversion are not modelled.
- Only part of `pd.to_numeric` is modelled: an optional sign, digits, and an optional point followed by digits. Exponents, whitespace, `inf`/`nan` texts and numerals such as `.5` or `5.` are not; the model rejects them. The empty text is modelled: the strict parse reads it as missing, the coercing parse as NaN.
- The resample frequency is the bucket width in seconds. Parsing pandas frequency strings such as `'1T'` is not modelled.
- SQL, ORM and pandas plumbing are replaced by the functions over the tables: sessions, `create_all`, `read_sql_query`, `to_dict` and the `Database` singleton (database/database.py).
- The column projection and the `price` to `avg_price` rename in `insert_downsampled_data` (database/downsampled_data_repository.py:16-17) are not modelled. Records always have exactly the four fields `symbol`, `timestamp`, `avgPrice` and `medianPrice`, and the transformer never hands over a `price` column.
- `AggregateStore.ExecuteInsert`: the empty batch is not modelled. The source does not guard `.values(records)` against an empty list, and what the database does with it is not stated. The transformer never inserts an empty batch, because `DownsampleSpec` gives one record per surviving sample's bucket.
- `AggregateStore.DownsampledDataRepository.InsertDownsampledData`: for an empty batch the model changes nothing and reports success, which is not a promise of the source (see the line above).
- `collected_points` is a `Float` column (database/models.py:29), but the model counts it as a `nat`.
- The Binance `Spot` client is replaced by `Attempt.response`: a payload, or `None` when the request raises. The payload is modelled only through its `price` member.
- Only the per-symbol log entries of `transform_data` are modelled (`LogEntry`, transformation/transformer.py:24-28). The other log messages are not, including the start message of `transform_data` and the dropped-rows warning of `_downsample_data`; the count that warning reports is stated by `DroppedCountIsNonNumeric`.
- Scheduling and process entry are not part of this model: orchestrator/orchestrator.py, main.py, the retention job, and the start and stop of ingestion. Neither are the admin tools (tools/audit_db.py, tools/clear_db.py), configuration loading (utils/config_loader.py), logging setup (utils/logger.py), loading/loader.py and the abstract ingestion/base_ingestion.py.
