# ActivityTracker analyzer core, modelled in Dafny

This project models the data core of an Electron desktop dashboard. The dashboard reads
the local SQLite database of the ActivityTracker agent and turns its per-record activity
rows into daily and multi-day productivity reports. The model covers four source files:

- `electron/analyzer.ts`:
  - `decryptValue`, which opens a Fernet token: check the version byte, verify the
    HMAC-SHA256 tag, then AES-128-CBC decryption, with every failure wrapped as
    `Decryption failed: …`;
  - `parseTime` (12-hour clock text) and `calculateProductivity`;
  - the two analyses: `analyzeSingleDate`, where the first bad record aborts, and
    `analyzeMultiDate`, where bad records are skipped inside a `try`, days are grouped
    by date prefix, and the rollup sums the already-rounded day figures;
  - the `getAvailableDates` wrapper.
- `electron/duckdb-service.ts`:
  - the `DuckDBService` singleton and its `initialize`/`attachDatabase` life cycle;
  - discovery of the activity table by its `employee_id` and `start_time` columns;
  - the activity query: `=` or `LIKE '%id%'`, an optional date prefix, `ORDER BY
    start_time`;
  - the date query (`DISTINCT … ORDER BY date DESC`).
- `electron/db-reader.ts`:
  - the JSON export: every table except `sqlite_sequence`, rows since a cutoff when
    the table has `start_time`, buffers as base64;
  - `readActivityData`: `activities`, else `activity`, else the first table.
- `electron/config.ts`: `getConfig` (defaults overlaid by the file), `setConfig` and
  `initializeConfig`. The last fills an empty employee id from the hostname and an empty
  key from `agent.key`, trimmed, and writes back only when something was filled.

### Form and modelling choices

- **Loops and state.** Loops and state changes are methods proved against
  specification functions:
  - `Analyzer` holds the loops of the two analyses.
  - `DuckDB.DuckDBService` and `AppConfig.ConfigStore` are classes whose fields the
    methods update.
  - The registry's `instance` slot is the static singleton field.
- **The outside world is parameters.** Calls into libraries and the operating system
  become function-valued fields of parameter records:
  - `Fernet.Primitives`: base64, UTF-8, HMAC-SHA256, AES-128-CBC;
  - `Aggregation.Platform`: `parseFloat`, `Date` parsing, local wall-clock time;
  - `DuckDB.Environment`: database creation, extension loading, file existence,
    `ATTACH`;
  - `DbReader.ExportEnvironment`.
- **SQL, text and numbers.**
  - SQL `LIKE` is modelled exactly. `SqlLike.LikeContains` and
    `DuckDBQuery.MatchIsSubstringAndPrefix` show the match is a substring or prefix
    test when the identifier holds no wildcard.
  - `SqlLike.UnderscoreIsWildcard` shows that an identifier with `_` also matches
    identifiers that differ at that position.
  - Text ordering is binary collation (`Collation.AtMost`).
  - Numbers are exact reals. `Math.round` is `floor(x + 0.5)`.
- **Two properties of the code worth knowing.**
  - The export cutoff is 10 days before the current UTC date
    (`electron/db-reader.ts:46-49`). The model takes the cutoff date as an input.
  - `totalHours`, `activeHours` and `inactiveHours` are each rounded on their own, so
    a day's `totalHours` can differ from `round2(activeHours + inactiveHours)` by 0.01.
    `Aggregation.ReportPartsNotAdditive` gives such a day, and
    `Rounding.Round2OfSum` bounds the gap at one hundredth.

## Model

| member | source | states |
|---|---|---|
| Fernet.Slice | electron/analyzer.ts:48-64 | `Buffer#slice` clamps its indices into the buffer and is the plain subsequence when they are in range |
| Fernet.DecryptValue | electron/analyzer.ts:36-74 | every failure of `decryptValue` carries the `Decryption failed: ` prefix; a success is the token check's plaintext |
| Fernet.OpenToken | electron/analyzer.ts:43-70 | the token check after decoding: version byte, key split, tag comparison, then AES decryption and UTF-8; its meaning is stated by `AcceptedTokenIsAuthentic`, `AuthenticTokenLayout` and `OpenEncodedToken` |
| Fernet.TokenOf | electron/analyzer.ts:38-41 | the token bytes are the base64 decoding of the UTF-8 text of the base64-decoded field value |
| Fernet.DecryptValueWrapsFailure | electron/analyzer.ts:71-73 | each token-check error resurfaces as `Decryption failed: ` followed by that error's message |
| Fernet.WrongVersionRejected | electron/analyzer.ts:43-46 | a token whose first byte is not 0x80 fails with `Invalid Fernet version: <byte>` before any other check |
| Fernet.KeySplit | electron/analyzer.ts:48-49 | for a 32-byte key, the signing key is the first 16 bytes and the encryption key the last 16, together the whole key |
| Fernet.ShortTokenRejected | electron/analyzer.ts:51-59 | a token shorter than 32 bytes never verifies: the tag slice is short and the comparison fails on unequal lengths |
| Fernet.AcceptedTokenIsAuthentic | electron/analyzer.ts:51-61 | an accepted token is at least 32 bytes, starts with 0x80, and its last 32 bytes are the HMAC of everything before them |
| Fernet.BadTagRejectedBeforeDecryption | electron/analyzer.ts:59-66 | with a wrong tag the result is `HMAC verification failed` whatever the block cipher would do, so decryption never runs first |
| Fernet.AuthenticTokenLayout | electron/analyzer.ts:63-70 | for a verified token, the IV is bytes 9..25, the ciphertext runs from byte 25 to the tag, and the second key half decrypts it |
| Fernet.EncodeToken | electron/analyzer.ts:43-64 | the reference encoder lays out version, timestamp, IV, ciphertext and tag, giving 57 bytes plus the ciphertext |
| Fernet.OpenEncodedToken | electron/analyzer.ts:43-70 | round trip: opening an encoded token gives the UTF-8 text of what the cipher decrypts |
| Fernet.FlippedTagRejected | electron/analyzer.ts:55-61 | changing any tag byte of an encoded token makes it fail HMAC verification |
| Clock.DisplayHour | electron/analyzer.ts:81 | the displayed hour is 1..12 and agrees with the hour modulo 12 |
| Clock.Period | electron/analyzer.ts:80 | `PM` exactly from hour 12 on, `AM` exactly before |
| Clock.MinuteText | electron/analyzer.ts:82 | the minutes are always two digits whose value is the minute |
| Clock.HourText | electron/analyzer.ts:82 | the hour field has one or two digits whose value is the displayed hour |
| Clock.ParseTime | electron/analyzer.ts:76-83 | the clock text is 7 or 8 characters and ends in a space and `AM` or `PM`; `ReadParseTime` shows it determines the hour and minute |
| Clock.ReadParseTime | electron/analyzer.ts:76-83 | `parseTime` loses nothing within a day: reading its text back gives the hour 0..23 and the minute |
| Clock.HourFromDisplay | electron/analyzer.ts:80-81 | the displayed hour with its AM/PM suffix determines the 24-hour hour |
| Rounding.JsRound | electron/analyzer.ts:162-166 | `Math.round` gives the integer within half a unit, halves rounded up |
| Rounding.Round2 | electron/analyzer.ts:162-165 | hours to hundredths: within 0.005 of the exact value, on the hundredths grid |
| Rounding.Round1 | electron/analyzer.ts:166 | rates to tenths: within 0.05 of the exact value, on the tenths grid |
| Rounding.Round2Monotone | electron/analyzer.ts:162-165 | rounding to hundredths keeps order and sends 0 to 0 |
| Rounding.Round1KeepsPercent | electron/analyzer.ts:166 | a rounded rate stays within 0..100 |
| Rounding.Round2OfSum | electron/analyzer.ts:282-284 | rounding the parts and rounding the sum differ by at most one hundredth |
| Rounding.Round2NotAdditive | electron/analyzer.ts:282-284 | they do differ: 0.005 + 0.005 rounds apart from its rounded parts |
| Aggregation.TallyBuckets | electron/analyzer.ts:124-143 | active and AFK seconds are the sums of their buckets, and total seconds is active plus AFK plus what landed in neither |
| Aggregation.TallyTimes | electron/analyzer.ts:144-149 | `minTime` is the least start among records that have one, absent when none does; `maxTime` is the greatest end, or 0 when every end is at most 0 |
| Aggregation.FiguresMeaning | electron/analyzer.ts:152-156 | inactive hours are AFK hours plus neither-bucket time; with non-negative durations the rate is a percentage, 0 for an empty day |
| Aggregation.ProductivityThresholds | electron/analyzer.ts:85-96 | excellent exactly at rate ≥ 80 and ≥ 6 hours, good exactly below that at ≥ 60 and ≥ 4 hours, otherwise needs-improvement; the three emojis are distinct |
| Aggregation.CalculateProductivity | electron/analyzer.ts:85-96 | the level of a rate and an hour count; its bands are stated by `ProductivityThresholds` and `ProductivityMonotone` |
| Aggregation.ProductivityMonotone | electron/analyzer.ts:85-96 | more activity and more hours never lower the level |
| Aggregation.Emoji | electron/analyzer.ts:90-94 | each level's emoji is a single character |
| Aggregation.Report | electron/analyzer.ts:152-171 | a day's record: rounded figures, the level of the exact figures, times only when asked for; stated by `ReportRoundsAtOutput`, `ReportTimes` and `ReportKeepsOrder` |
| Aggregation.ReportRoundsAtOutput | electron/analyzer.ts:152-171 | each reported figure is within half a last-place unit of its exact value, and the level is judged on the exact figures |
| Aggregation.ReportTimes | electron/analyzer.ts:167-168 | the start time is `N/A` exactly when no record had a start; the end time is `N/A` exactly when `maxTime` stayed 0 |
| Aggregation.ClockIsNotNA | electron/analyzer.ts:167-168 | a clock reading is never the text `N/A`, so `N/A` always means no time |
| Aggregation.SingleSample | electron/analyzer.ts:125-149 | one record of `analyzeSingleDate`: duration decoded first, then the flag; stated by `SingleSampleBucket` and `SingleSampleFailure` |
| Aggregation.SingleSamples | electron/analyzer.ts:124-150 | a successful pass has one sample per record; stated further by `SingleSamplesOk` and `SingleSamplesErr` |
| Aggregation.SingleDateAnalysis | electron/analyzer.ts:107-174 | `analyzeSingleDate` on the query's result: query errors pass through, no records is the no-data error, a failed record is its error, otherwise the report with times; stated by `SingleDateSplit` |
| Aggregation.SingleSamplesOk | electron/analyzer.ts:124-150 | a successful single-date pass yields each record's own sample, in order |
| Aggregation.SingleSamplesErr | electron/analyzer.ts:124-150 | a failed single-date pass fails with the error of its first failing record, all earlier records passing |
| Aggregation.SingleSampleBucket | electron/analyzer.ts:125-142 | a single-date record is AFK exactly when its decoded flag is `1`, `true` or `True`, otherwise active; its duration is the decoded text parsed |
| Aggregation.SingleSampleFailure | electron/analyzer.ts:125-134 | a single-date record fails only when there is a key, and only with the duration's or the flag's decryption error |
| Aggregation.SingleDateDecryptionFailure | electron/analyzer.ts:107-150 | with the Fernet decryptor, a day containing a bad record fails the whole analysis with a `Decryption failed: ` error |
| Aggregation.NoKeyNoFailure | electron/analyzer.ts:125-134 | without a key nothing is decrypted, so no record fails |
| Aggregation.SingleSamplesStopAt | electron/analyzer.ts:124-150 | the first failing record ends the pass with its error |
| Aggregation.SingleDateSplit | electron/analyzer.ts:111-156 | no records gives `No data found for date: <date>`; a successful day's total seconds are exactly active plus AFK |
| Aggregation.MultiSampleCases | electron/analyzer.ts:209-233 | a record whose duration does not decrypt is skipped; one whose flag does not decrypt counts in the total only; otherwise the flag picks AFK or active |
| Aggregation.MultiSample | electron/analyzer.ts:209-232 | one record inside the `try` of `analyzeMultiDate`, skipped or counted; stated by `MultiSampleCases` |
| Aggregation.MultiSamples | electron/analyzer.ts:209-233 | the surviving samples of a day are at most as many as its records |
| Aggregation.RecordsOn | electron/analyzer.ts:190-197 | a record is in a date's group exactly when it was fetched and its first ten characters are that date |
| Aggregation.RecordsOnCopies | electron/analyzer.ts:191-196 | a date's group holds each of its records as many times as it was fetched, and no record of another date |
| Aggregation.RecordsOnCopiesOf | electron/analyzer.ts:191-196 | for one record, the number of its copies in a date's group is its number of fetched copies when it has that date and 0 otherwise |
| Aggregation.RecordsOnConcat | electron/analyzer.ts:191-196 | grouping the concatenation of two fetched lists concatenates their groups, so a group keeps the fetched order |
| Aggregation.RecordsOnSingle | electron/analyzer.ts:192-195 | a single record lands, once, in the group of its own date and in no other |
| Aggregation.RecordsOnLast | electron/analyzer.ts:191-196 | one more fetched record is appended to its own date's group and leaves the others as they were |
| Aggregation.ReportedDates | electron/analyzer.ts:201-203 | a date is reported exactly when it is requested and has records |
| Aggregation.ReportedDatesOrder | electron/analyzer.ts:201-203 | reported dates keep the order of the requested list |
| Aggregation.DayOf | electron/analyzer.ts:205-253 | the analysis of one date carries that date; `DailyAnalysesDates` ties each entry to its date's records and `AnalyzeDay` shows its times are `N/A` |
| Aggregation.MapDates | electron/analyzer.ts:201-254 | as many analyses as dates |
| Aggregation.MapDatesEntries | electron/analyzer.ts:201-254 | the k-th analysis is the one made for the k-th date, so the list follows the date order |
| Aggregation.DailyAnalyses | electron/analyzer.ts:199-254 | `dailyAnalyses`; stated by `DailyAnalysesDates`, `DailyAnalysesSkip` and `DailyAnalysesAdd` |
| Aggregation.DailyAnalysesDates | electron/analyzer.ts:199-254 | there is an analysis for a date exactly when the date is requested and has records, and each analysis is made from that date's records only |
| Aggregation.DailyAnalysesSkip | electron/analyzer.ts:202-203 | a requested date without records adds no analysis |
| Aggregation.DailyAnalysesAdd | electron/analyzer.ts:201-254 | a requested date with records appends the analysis of its records |
| Aggregation.RollupMeaning | electron/analyzer.ts:256-290 | each breakdown entry is its day's reported figures; the three totals are the rounded sums of the already-rounded day figures; `totalDays` is the breakdown's length; averages and rate are 0 with no day, the rate is 0 with nothing tracked and a percentage when each day's active time is within its tracked time |
| Aggregation.Rollup | electron/analyzer.ts:256-290 | the `MultiDayAnalysis` of the day analyses; stated by `RollupMeaning` and `SumDaysBounds` |
| Aggregation.MultiDateAnalysis | electron/analyzer.ts:176-291 | `analyzeMultiDate` on the query's result: the query's error, or the rollup of the day analyses of the listed dates |
| Aggregation.SumDaysBounds | electron/analyzer.ts:260-263 | the summed active hours are non-negative and no more than the summed tracked hours |
| Aggregation.ReportKeepsOrder | electron/analyzer.ts:160-166 | with non-negative durations, a reported day keeps 0 ≤ active ≤ total and its rate within 0..100 after rounding |
| Aggregation.ReportPartsNotAdditive | electron/analyzer.ts:162-164 | a day can report total 0.01 while active and inactive each report 0.01 |
| Analyzer.SingleStep | electron/analyzer.ts:125-149 | one pass of the single-date loop body adds the record's sample to the totals, or returns its decryption error |
| Analyzer.TallySingle | electron/analyzer.ts:118-150 | the single-date loop computes the tally of the day's samples, or stops with the first record's error |
| Analyzer.AnalyzeSingleDate | electron/analyzer.ts:107-174 | `analyzeSingleDate` yields the specified analysis of what the query returns for that day, with the query's errors passed through |
| Analyzer.GroupByDate | electron/analyzer.ts:189-197 | `recordsByDate` has a key exactly for each requested date with records, holding that date's records in fetched order |
| Analyzer.DayStep | electron/analyzer.ts:209-232 | one pass of the multi-date loop body, with its `try`/`catch`, adds the record's sample or nothing |
| Analyzer.MultiSamplesNoSpan | electron/analyzer.ts:205-207 | multi-date totals never track a time span |
| Analyzer.TallyDay | electron/analyzer.ts:205-233 | the inner multi-date loop computes the tally of the day's surviving samples |
| Analyzer.AnalyzeDay | electron/analyzer.ts:205-253 | a day's entry is its report with `N/A` times |
| Analyzer.AnalyzeDays | electron/analyzer.ts:199-254 | the day loop builds exactly the specified per-date analyses, in requested order |
| Analyzer.RollupDays | electron/analyzer.ts:256-290 | the `map` callback and the figures after it compute the specified rollup |
| Analyzer.AnalyzeMultiDate | electron/analyzer.ts:176-291 | `analyzeMultiDate` yields the rollup of the specified day analyses over all of the employee's records |
| Analyzer.AvailableDatesOrNone | electron/analyzer.ts:98-105 | the wrapper's dates are strictly descending, empty when the service has no database, otherwise the service's dates |
| Analyzer.GetAvailableDates | electron/analyzer.ts:98-105 | the wrapper method returns exactly those dates |
| DuckDBQuery.FirstActivityTable | electron/duckdb-service.ts:96-107 | discovery picks the first table with `employee_id` and `start_time`; no earlier table qualifies, and none is picked exactly when no table qualifies |
| DuckDBQuery.TableNamed | electron/duckdb-service.ts:119 | `FROM sqlite_db.<name>` finds a table of that name, or there is none |
| DuckDBQuery.TableNamedFinds | electron/duckdb-service.ts:119 | with distinct names a table's name leads back to that table |
| DuckDBQuery.SelectRows | electron/duckdb-service.ts:114-128 | every row that matches the identifier and the date gives its projection to the three columns, and every result is such a projection |
| DuckDBQuery.SelectRowsConcat | electron/duckdb-service.ts:114-128 | selecting from two row lists one after the other is selecting from their concatenation, so scan order and repeated rows are kept |
| DuckDBQuery.SelectRowsSingle | electron/duckdb-service.ts:114-128 | a single row gives exactly its projection when it matches, and nothing otherwise |
| DuckDBQuery.SelectRowsFirst | electron/duckdb-service.ts:114-128 | the first scanned row contributes its projection, when it matches, ahead of what the remaining rows give |
| DuckDBQuery.InsertByStart | electron/duckdb-service.ts:131 | inserting into a `start_time`-sorted list keeps it sorted and adds exactly that record |
| DuckDBQuery.SortByStart | electron/duckdb-service.ts:131 | `ORDER BY start_time ASC` gives a sorted permutation of the selected rows |
| DuckDBQuery.QueryActivities | electron/duckdb-service.ts:114-135 | the query fails exactly when one of the four columns it names is missing; otherwise it returns the selected rows, sorted by `start_time`, each as often as selected |
| DuckDBQuery.RawActivitiesSelection | electron/duckdb-service.ts:94-135 | with no activity table the result is empty; otherwise it is the first activity table's matching rows sorted by start, or a binder error when a queried column is missing |
| DuckDBQuery.RawActivitiesFrom | electron/duckdb-service.ts:94-135 | `getRawActivities` from discovery on; stated by `RawActivitiesSelection` |
| DuckDBQuery.MatchIsSubstringAndPrefix | electron/duckdb-service.ts:120-127 | without wildcards, a row matches exactly when its identifier equals or contains the given one, and a date selects by prefix |
| DuckDBQuery.InsertDescending | electron/duckdb-service.ts:164-167 | inserting a date keeps the list strictly descending and adds exactly that date |
| DuckDBQuery.DistinctDescending | electron/duckdb-service.ts:164-167 | `DISTINCT … ORDER BY date DESC` gives the distinct values, strictly descending |
| DuckDBQuery.AvailableDatesFrom | electron/duckdb-service.ts:145-176 | the dates offered are always strictly descending |
| DuckDBQuery.AvailableDatesAreDistinctDates | electron/duckdb-service.ts:147-171 | with no activity table there are no dates; otherwise they are exactly the distinct dates of the matching rows when every cast succeeds |
| DuckDBQuery.CastDates | electron/duckdb-service.ts:163-171 | the cast dates of the rows whose identifier matches, in scan order, failing when a cast fails; stated by `AvailableDatesAreDistinctDates` |
| SqlLike.PercentMatchesAll | electron/duckdb-service.ts:120-123 | `%` matches any text |
| SqlLike.LikePrefix | electron/duckdb-service.ts:125-127 | `s LIKE lit%` is a prefix test when `lit` holds no wildcard |
| SqlLike.LikeLeadingPercent | electron/duckdb-service.ts:120-123 | a leading `%` lets the rest of the pattern match any suffix |
| SqlLike.LikeContains | electron/duckdb-service.ts:120-123 | `s LIKE %id%` is a substring test when `id` holds no wildcard |
| SqlLike.UnderscoreIsWildcard | electron/duckdb-service.ts:120-123 | an `_` in the identifier matches any character, so `HOST_01` selects `HOSTX01` |
| Collation.AtMostReflexive | electron/duckdb-service.ts:131 | the text order is reflexive |
| Collation.AtMostAntisymmetric | electron/duckdb-service.ts:131 | the text order is antisymmetric |
| Collation.AtMostTransitive | electron/duckdb-service.ts:131 | the text order is transitive |
| Collation.AtMostTotal | electron/duckdb-service.ts:131 | any two texts are comparable |
| DuckDB.ForwardSlashes | electron/duckdb-service.ts:74 | the path keeps its length, with every backslash turned into a slash and every other character kept |
| DuckDB.InitializeStep | electron/duckdb-service.ts:28-46 | an initialized service is left alone; otherwise `initialize` passes exactly when creation and the extension load do, and passing sets the flag over a fresh in-memory database |
| DuckDB.AttachFailure | electron/duckdb-service.ts:76-85 | the `catch` of `attachDatabase`: an error is swallowed exactly when its message mentions `already exists`; stated by `AttachOutcome` |
| DuckDB.AttachTo | electron/duckdb-service.ts:63-85 | attaching keeps a database and the flag; the state changes only on a passing `ATTACH` of an existing file, which stores that file's tables |
| DuckDB.AttachStep | electron/duckdb-service.ts:60-86 | `attachDatabase` as a step: initialize first without a database, then attach; stated by `AttachOutcome` and `MissingFileReported` |
| DuckDB.RawActivities | electron/duckdb-service.ts:88-140 | `DuckDB not initialized` without a database, otherwise the activity query over the attached tables |
| DuckDB.InitializeKeepsValid | electron/duckdb-service.ts:28-46 | `initialize` sets the flag only once a database is in place |
| DuckDB.AttachToKeepsValid | electron/duckdb-service.ts:63-85 | attaching stores only a catalog the file could hold |
| DuckDB.StepsKeepValid | electron/duckdb-service.ts:28-86 | both life-cycle steps keep the service's fields consistent |
| DuckDB.InitializeIdempotent | electron/duckdb-service.ts:28-46 | a passing `initialize` leaves the service initialized, and a second call changes nothing |
| DuckDB.AttachOutcome | electron/duckdb-service.ts:60-86 | a passing attach leaves a database; a successful `ATTACH` stores exactly the file's tables; once attached, a second call changes nothing |
| DuckDB.MissingFileReported | electron/duckdb-service.ts:48-58 | a missing file fails the attach with the message naming the expected path |
| DuckDB.AvailableDates | electron/duckdb-service.ts:142-177 | the only error is the missing database; successful dates are strictly descending |
| DuckDB.UnattachedIsEmpty | electron/duckdb-service.ts:94-112 | before `ATTACH`, both queries find no table and return nothing |
| DuckDB.FindActivityTable | electron/duckdb-service.ts:96-107 | the discovery loop, with its early `break`, settles on the specified table name |
| DuckDB.DuckDBService.constructor | electron/duckdb-service.ts:16-19 | a new service has no database and is not initialized |
| DuckDB.DuckDBService.Initialize | electron/duckdb-service.ts:28-46 | `initialize` moves the fields as the specified step does and keeps them consistent |
| DuckDB.DuckDBService.AttachDatabase | electron/duckdb-service.ts:60-86 | `attachDatabase`, initializing first when there is no database, moves the fields as the specified step does |
| DuckDB.DuckDBService.GetRawActivities | electron/duckdb-service.ts:88-140 | `getRawActivities` fails with `DuckDB not initialized` without a database, otherwise returns the specified activity query |
| DuckDB.DuckDBService.GetAvailableDates | electron/duckdb-service.ts:142-177 | `getAvailableDates` returns the specified dates |
| DuckDB.ServiceRegistry.GetInstance | electron/duckdb-service.ts:21-26 | `getInstance` returns the stored instance, creating a fresh, uninitialized one only the first time |
| DbReader.SerializeValue | electron/db-reader.ts:30-36 | a buffer becomes its base64 text and any other value is kept; no buffer remains |
| DbReader.SerializeIdempotent | electron/db-reader.ts:30-36 | serializing twice is serializing once |
| DbReader.SerializeRow | electron/db-reader.ts:77-81 | the per-row loop serializes every value, keeping the keys and their order |
| DbReader.SerializeRows | electron/db-reader.ts:76-82 | `rows.map` serializes each row |
| DbReader.Lookup | electron/db-reader.ts:106 | a key is absent exactly when no entry has it; a found value belongs to an entry with that key |
| DbReader.KeepSince | electron/db-reader.ts:66-72 | `WHERE start_time >= ?` keeps only rows at or after the cutoff, and every such row appears in the result |
| DbReader.KeepSinceCopies | electron/db-reader.ts:66-72 | each row at or after the cutoff is exported as many times as it is stored, and no other row is exported |
| DbReader.KeepSinceCopiesOf | electron/db-reader.ts:66-72 | for one row, the number of its exported copies is its number of stored copies when it is at or after the cutoff, and 0 otherwise |
| DbReader.KeepSinceConcat | electron/db-reader.ts:66-72 | filtering two row lists one after the other is filtering their concatenation, so the rows stay in scan order |
| DbReader.KeepSinceSingle | electron/db-reader.ts:66-72 | a single row is kept exactly when its `start_time` is at or after the cutoff |
| DbReader.SelectedRows | electron/db-reader.ts:62-73 | tables with `start_time` keep only rows since the cutoff; other tables keep all rows |
| DbReader.ExportedRows | electron/db-reader.ts:71-82 | a table's exported rows are its selected rows, each serialized |
| DbReader.Export | electron/db-reader.ts:52-83 | the snapshot built table by table in `sqlite_master` order; stated by `ExportKeys`, `ExportedTable` and `ExportStep` |
| DbReader.Put | electron/db-reader.ts:76 | `data[name] = rows` makes the name map to those rows and leaves every other name as it was |
| DbReader.ExportKeys | electron/db-reader.ts:56-83 | `sqlite_sequence` is never exported, and every other table name is |
| DbReader.ExportedTable | electron/db-reader.ts:56-83 | a table whose name is not repeated later is exported with its own serialized rows |
| DbReader.ExportStep | electron/db-reader.ts:56-83 | each further table adds its rows, except `sqlite_sequence`, which adds nothing |
| DbReader.ExportTables | electron/db-reader.ts:52-83 | the table loop builds exactly the specified snapshot |
| DbReader.ExportErrorsWrapped | electron/db-reader.ts:93-96 | every export failure carries `Failed to export database: `, and a file is written exactly on success |
| DbReader.ExportResult | electron/db-reader.ts:38-97 | `exportToJson`: a missing file, an open failure or a write failure is the wrapped error; otherwise the output path and the snapshot; stated by `ExportErrorsWrapped` |
| DbReader.ExportToJson | electron/db-reader.ts:38-97 | `exportToJson` yields the specified result and written snapshot |
| DbReader.ReadActivityData | electron/db-reader.ts:99-110 | an unreadable file, and only that, gives `Failed to read activity data…` |
| DbReader.ReadAfterExport | electron/db-reader.ts:56-106 | after exporting a file with an `activities` table, reading gives that table's exported rows |
| DbReader.ReadPrefersActivities | electron/db-reader.ts:106 | `activities` wins over `activity`, which wins over the first table; an empty snapshot gives no rows |
| AppConfig.OverlayFieldwise | electron/config.ts:30-39 | an object spread keeps each field the overlay omits and takes each it supplies |
| AppConfig.OverlayIdentityAndRoundTrip | electron/config.ts:30-40 | overlaying nothing changes nothing, and a whole record written out reads back as itself |
| AppConfig.OverlayCompose | electron/config.ts:30-39 | two spreads in a row are one spread of the merged fields |
| AppConfig.Overlay | electron/config.ts:30-39 | `{ ...base, ...p }`; stated by `OverlayFieldwise`, `OverlayIdentityAndRoundTrip` and `OverlayCompose` |
| AppConfig.Merge | electron/config.ts:37-39 | `{ ...p, ...q }` on partial records; stated by `OverlayCompose` |
| AppConfig.Loaded | electron/config.ts:27-35 | the defaults without a readable file, otherwise the file's fields over them; stated through `ConfigStore.GetConfig` |
| AppConfig.UsableKey | electron/config.ts:64 | `key && key.trim()`: the key is non-empty and not all white space; stated by `FilledKeyIsTrimmed` |
| AppConfig.FillConfig | electron/config.ts:48-76 | the two fill steps and the `updated` flag; stated by `FillOnlyEmptyFields`, `FillUpdatedExactly` and `FillIdempotent` |
| AppConfig.FillOnlyEmptyFields | electron/config.ts:48-72 | start-up fills only empty fields: the employee id from the hostname, the key from `agent.key` trimmed and non-empty; `dbPath` is untouched |
| AppConfig.FillUpdatedExactly | electron/config.ts:46-76 | a write is due exactly when a field was filled, and nothing changes otherwise |
| AppConfig.FillIdempotent | electron/config.ts:49-60 | once both fields are set, start-up fills nothing and writes nothing, again and again |
| AppConfig.FilledKeyIsTrimmed | electron/config.ts:64-65 | a filled key is non-empty, with no white space at either end |
| AppConfig.WriteBack | electron/config.ts:37-76 | writing a record back over a config with the same `dbPath` reads back as that record |
| AppConfig.ConfigObject.constructor | electron/config.ts:6-10 | a new config object holds the given fields |
| AppConfig.ConfigStore.constructor | electron/config.ts:22-25 | the store starts with `DEFAULT_CONFIG`, with both fields empty |
| AppConfig.ConfigStore.GetConfig | electron/config.ts:27-35 | with no readable file the result is the `DEFAULT_CONFIG` object itself; otherwise a new object, the file's fields over the defaults |
| AppConfig.ConfigStore.SetConfig | electron/config.ts:37-41 | the file becomes the current config with the new fields over it, unless the write fails, in which case it is unchanged |
| AppConfig.FillFields | electron/config.ts:48-72 | the two fill steps assign the object's fields as the specified fill does |
| AppConfig.ConfigStore.InitializeConfig | electron/config.ts:43-79 | start-up returns the filled config, writing it only when updated; with no file it fills `DEFAULT_CONFIG` in place; a failed write is the error |

## Left out

- I/O and drivers are inputs:
  - file access and JSON text encoding and parsing;
  - the DuckDB and better-sqlite3 engines themselves;
  - `os.hostname()`, the reading of `agent.key`, and console logging.
  - Each outcome they can have is a parameter. A parse failure is the same as a missing
    file.
- Floating point: durations, hours and rates are exact reals. IEEE rounding, `NaN` from
  `parseFloat`, and invalid dates are not modelled. `parseFloat`, `Date` parsing and
  the local-time conversion are parameters.
- Clock.ParseTime: takes the local hour and minute; converting the epoch value to local
  time is the platform's.
- DbReader.ExportResult: the cutoff is an input. Computing "today minus 10 days" with
  `toISOString` is left to the clock.
- DuckDB cells are modelled as text only:
  - NULL and non-text values in the activity table are not modelled;
  - the date cast (`CAST … AS TIMESTAMP`, `strftime`) is a parameter whose failure
    fails the whole query.
- Identifiers are taken as plain: table names spliced into SQL text are not checked
  for quoting or injection.
- The order of rows with equal `start_time` is left open by SQL. The model settles it
  as scan order, with a stable sort.
- JavaScript object details are not modelled:
  - objects are modelled as ordered lists of pairs, so the ordering of integer-like keys
    and prototype keys such as `constructor` is not captured, both in `recordsByDate`
    and in the export's `data`;
  - duplicate column names in a row are not modelled.
- AppConfig.ConfigStore.GetConfig: only the three declared fields of `app-config.json`
  are modelled, and only with string values. Unknown keys and values of other types are
  dropped.
- Aggregation.DateOf: `substring(0, 10)` counts UTF-16 code units, while the model's
  characters are code points. The two differ when one of the first ten characters of
  `start_time` lies outside the Basic Multilingual Plane.
- Aggregation.RecordsOn: its own contract states membership only. The copies are stated
  by `RecordsOnCopies` and the order by `RecordsOnConcat` with `RecordsOnSingle`. They
  are kept out of the function's contract, where they would weigh on every proof that
  uses a group.
- DbReader.KeepSince: its own contract states membership only. The copies are stated by
  `KeepSinceCopies` and the order by `KeepSinceConcat` with `KeepSinceSingle`.
- DuckDBQuery.SelectRows: its own contract states membership only. The copies and the
  order are stated by `SelectRowsConcat` with `SelectRowsSingle`.
- Concurrency: overlapping `async` calls are not modelled. Each operation runs to
  completion.
- The rest of the repository is not part of this model: the Electron main process, the
  preload bridge and the user interface.
