# Data Lake star-schema ETL, modelled in Dafny

`Data-Lake/etl.py` loads two JSON data sets and turns them into a star schema.
The song catalog becomes the `songs` and `artists` dimension tables.
The user-activity log becomes the `users` and `time` dimension tables and the
`songplays` fact table. The program is a chain of Spark dataframe operations.
Each one is a relational operation on a finite table, and this project models
each as a function on sequences of rows:

- `select` is `Relational.Select`.
- `filter` is `Relational.Filter`.
- `dropDuplicates` is `Relational.Distinct`.
- `monotonically_increasing_id` is an `Allocator`: a strictly increasing map
  from row position to id.
- Both inner joins are modelled.
- The udf `get_timestamp` and the date functions `hour`, `dayofmonth`,
  `weekofyear`, `month`, `year` and `dayofweek` are written out as integer
  calendar arithmetic.

Modules, one per file:

- `Wrappers`: `Option` and `Result`.
- `Relational`: projection, selection, duplicate elimination, the id allocator.
- `Schema`: JSON tokens, `song_schema`, and reading a catalog record under it.
- `Calendar`: proleptic Gregorian day numbers, the ISO 8601 week (section
  4.1.4 of ISO 8601:2004), and day of week.
- `UtcTime`: epoch milliseconds to UTC fields and back, and
  `datetime.utcfromtimestamp`'s year range.
- `SongData`: `process_song_data`, that is, the songs and artists tables.
- `LogData`: `process_log_data`, that is, the NextSong filter, the users and
  time tables, the song join, the time join and the final dedup.
- `Etl`: `main`, which runs both stages in order, plus whole-pipeline properties.

Proved properties include:

- Every table is duplicate-free.
- Every row of the songs, artists, users and time tables comes from an input
  record, and every input record's projection appears.
- `song_id` and `songplay_id` are distinct.
- Only `NextSong` records reach the log tables.
- The udf fails exactly on a missing or out-of-range `ts`.
- Every time field is in range, and the time row comes from its own `ts`.
- Songplay i describes joined pair i (an event and a song with the same
  title), with one songplay per pair, and each such pair yields a songplay.
- Each songplay meets exactly one time row, with that row's year and month.
- A run's rows do not depend on which ids the allocator hands out.

## Model

| member | source | states |
|---|---|---|
| Relational.Filter | Data-Lake/etl.py:71 | the rows kept are exactly the input rows satisfying the condition, each as many times as it occurs in the input; never more rows than the input |
| Relational.Distinct | Data-Lake/etl.py:69 | the result has no duplicate row and holds exactly the rows of the input |
| Relational.SelectElements | Data-Lake/etl.py:48 | a projection's rows are exactly the images of the input rows |
| Relational.NoDuplicatesConcat | Data-Lake/etl.py:101 | two duplicate-free, disjoint tables concatenate to a duplicate-free table |
| Relational.FilterIdempotent | Data-Lake/etl.py:71 | filtering twice by the page condition is filtering once |
| Relational.FilterConcat | Data-Lake/etl.py:71 | filtering distributes over concatenation of tables; with `Relational.FilterSingleton` (one row passes exactly when it meets the condition) this fixes that the kept rows stay in input order |
| Relational.FilterNone | Data-Lake/etl.py:106 | a condition no row meets selects nothing, so an unmatched row joins nothing |
| Relational.FilterSingle | Data-Lake/etl.py:106 | a condition met by exactly one row selects exactly that row |
| Relational.DistinctOfNoDuplicates | Data-Lake/etl.py:111 | dedup of a table without duplicates is the identity |
| Relational.FilterDistinctCommute | Data-Lake/etl.py:69-71 | dedup then filter equals filter then dedup, order included |
| Schema.ReadToken | Data-Lake/etl.py:33-45 | a column read is non-null and of its declared type. StringType: every non-null token except a number written with a fraction or exponent (a `JFloat`) is read, and a string token as itself. DoubleType: exactly the numbers are read, with their value. IntegerType: exactly the integers that fit 32 bits are read, with their value |
| Schema.IntTextRoundTrip | Data-Lake/etl.py:45 | the JSON text of an integer parses back to that integer, so distinct integers give distinct texts |
| Schema.ReadIntegerAsString | Data-Lake/etl.py:45 | an integer token in a StringType column is read as text that parses back to the integer |
| Schema.ReadTokenOfValueJson | Data-Lake/etl.py:45 | a typed column written as JSON reads back as the same column |
| Schema.ReadRowOfWriteRow | Data-Lake/etl.py:45 | a conforming row written as a JSON record reads back unchanged under the same schema |
| Schema.CatalogRecordIsTheSchemaRow | Data-Lake/etl.py:33-45 | the typed catalog record keeps every schema column under its own name, in schema order |
| Schema.CatalogRowConforms | Data-Lake/etl.py:33-43 | a record whose integers fit 32 bits conforms to `song_schema` |
| Schema.ParseCatalogJson | Data-Lake/etl.py:45 | reading back a written catalog record gives the record, whenever its integers fit 32 bits |
| Schema.ParseCatalog | Data-Lake/etl.py:45 | reading one catalog record under `song_schema`; its contract is carried by `Schema.CatalogRecordIsTheSchemaRow` (the record is the schema-ordered row read), `Schema.ParseCatalogJson` (round trip) and `Schema.ParseCatalogIgnoresOtherKeys` |
| Schema.ParseCatalogIgnoresOtherKeys | Data-Lake/etl.py:45 | keys outside the schema do not change the record read |
| Calendar.QuotientStep | Data-Lake/etl.py:80 | floor quotients by 4, 100 and 400 step up exactly at multiples, which is the leap-year rule |
| Calendar.NextYear | Data-Lake/etl.py:80 | January 1 of the next year is one year length later |
| Calendar.NextMonth | Data-Lake/etl.py:84-86 | a month starts one month length after the previous month |
| Calendar.FourHundredYears | Data-Lake/etl.py:80 | every 400 Gregorian years hold 146097 days |
| Calendar.DaysBeforeYearMonotone | Data-Lake/etl.py:87 | January 1 day numbers increase with the year |
| Calendar.DaysBeforeMonthMonotone | Data-Lake/etl.py:86 | month start ordinals increase with the month |
| Calendar.YearWithin | Data-Lake/etl.py:87 | walking whole years leaves an ordinal within the year reached, preserving the day |
| Calendar.YearDay | Data-Lake/etl.py:87 | the year and 0-based ordinal of a day number recompose to that day, and the ordinal is within the year's length |
| Calendar.YearDayUnique | Data-Lake/etl.py:87 | a day number has exactly one (year, ordinal) decomposition |
| Calendar.MonthWithin | Data-Lake/etl.py:86 | the month found holds the ordinal: it starts at or before it, and the next month after it |
| Calendar.MonthWithinUnique | Data-Lake/etl.py:86 | the month that holds an ordinal is the unique one whose bounds enclose it |
| Calendar.CivilFromDays | Data-Lake/etl.py:84-87 | the date of a day number is a valid date whose day number is that day |
| Calendar.CivilFromDaysFromCivil | Data-Lake/etl.py:84-87 | every valid date is the date of its own day number, so the two maps are inverse |
| Calendar.IsoWeekday | Data-Lake/etl.py:85 | ISO weekday, Monday = 1 .. Sunday = 7, in 1..7 |
| Calendar.DayOfWeek | Data-Lake/etl.py:88 | `dayofweek` is in 1..7 and is the ISO weekday shifted so that Sunday is 1 |
| Calendar.NextWeekday | Data-Lake/etl.py:88 | the weekday of the next day is the next weekday, cyclically |
| Calendar.IsoWeek | Data-Lake/etl.py:85 | the ISO week number is in 1..53 |
| Calendar.January4IsInWeekOne | Data-Lake/etl.py:85 | the week holding January 4 is week 1 of its year |
| Calendar.SameWeekUntilSunday | Data-Lake/etl.py:85 | Monday through Sunday share one week number |
| Calendar.YearDayPlusWeek | Data-Lake/etl.py:85 | seven days later is in the same year at ordinal + 7, or in the next year once the year ends |
| Calendar.WeekOfNextThursday | Data-Lake/etl.py:85 | the Thursday a week later has the next week number, or 1 after week 52 or 53 |
| Calendar.NextWeekAfterSunday | Data-Lake/etl.py:85 | after a Sunday the week number increases by one, or restarts at 1 after week 52 or 53 |
| UtcTime.FromEpochMillis | Data-Lake/etl.py:80 | the UTC fields of a millisecond timestamp are a valid instant naming that timestamp |
| UtcTime.FromToEpochMillis | Data-Lake/etl.py:80 | every valid instant is the decomposition of its own timestamp |
| UtcTime.FromEpochMillisInjective | Data-Lake/etl.py:80 | distinct timestamps give distinct instants |
| UtcTime.UtcFromTimestamp | Data-Lake/etl.py:80 | the instant names the timestamp and has year 1..9999; it is absent exactly when the year is outside that range |
| UtcTime.YearDayBounds | Data-Lake/etl.py:80 | a day lies between its year's January 1 and the next year's |
| UtcTime.YearAtLeast | Data-Lake/etl.py:80 | a day's year is at least `lo` exactly when the day is on or after January 1 of `lo` |
| UtcTime.YearAtMost | Data-Lake/etl.py:80 | a day's year is at most `hi` exactly when the day is before January 1 of `hi + 1` |
| UtcTime.YearInRange | Data-Lake/etl.py:80 | a day's year is in lo..hi exactly when the day lies between those years' bounds |
| UtcTime.UtcFromTimestampDomain | Data-Lake/etl.py:80 | `utcfromtimestamp` succeeds exactly on -62135596800000 .. 253402300799999 ms |
| UtcTime.WeekOfYear | Data-Lake/etl.py:85 | `weekofyear` is in 1..53 |
| UtcTime.Weekday | Data-Lake/etl.py:88 | `dayofweek` is in 1..7 |
| UtcTime.Y2K | Data-Lake/etl.py:80-88 | ts 946684800000 is 2000-01-01T00:00:00Z, weekday 7 (Saturday), ISO week 52 |
| UtcTime.Y2KInstant | Data-Lake/etl.py:80 | the fields of ts 946684800000 are 2000-01-01 00:00:00.000 |
| UtcTime.Y2KWeek | Data-Lake/etl.py:85-88 | 2000-01-01 has `dayofweek` 7 and `weekofyear` 52 |
| SongData.NumberSongs | Data-Lake/etl.py:49 | numbering keeps every row and its order; song ids increase strictly along the table |
| SongData.NumberedKeys | Data-Lake/etl.py:49 | the numbered rows carry exactly the keys numbered |
| SongData.KeysOfRecords | Data-Lake/etl.py:48 | the rows drawn from the projected keys are exactly the records' projections |
| SongData.SongTable | Data-Lake/etl.py:48-49 | no two song rows share (title, artist_id, year, duration); song ids are pairwise distinct; every row is a record's projection and every record's projection appears |
| SongData.SongTableRowsIgnoreIds | Data-Lake/etl.py:48-49 | the song rows without ids are the deduplicated projection, whatever the allocator |
| SongData.ArtistTable | Data-Lake/etl.py:54 | no duplicate artist row; a row appears exactly when it is some record's five artist columns |
| SongData.SongArtistsListed | Data-Lake/etl.py:48-54 | the artist_id of every song row is that of some row of the artists table built from the same records |
| SongData.ProcessSongData | Data-Lake/etl.py:22-56 | `process_song_data` without I/O; its contract is carried by `SongData.SongTable`, `SongData.ArtistTable`, `SongData.SongArtistsListed` and `Etl.SongTablesHaveSameRows` |
| SongData.ArtistIdCanRepeat | Data-Lake/etl.py:54 | two records with one artist_id but different artist details give two artist rows with that id |
| LogData.NextSongEvents | Data-Lake/etl.py:69-71 | no duplicate record; a record appears exactly when it is in the log and has page NextSong |
| LogData.NextSongEventsOnlySeeNextSongs | Data-Lake/etl.py:69-71 | filtering the log first to NextSong records changes nothing |
| LogData.UsersTable | Data-Lake/etl.py:74-75 | no duplicate user row; a row appears exactly when it is some record's five user columns |
| LogData.UserCanRepeatWithAnotherLevel | Data-Lake/etl.py:74-75 | one userId with two levels yields two user rows with that id |
| LogData.GetTimestamp | Data-Lake/etl.py:80 | success gives the instant of `ts`; a null ts is TypeError; an out-of-range ts is ValueError; success holds exactly on a present ts in range |
| LogData.WellStampedIsTheUdf | Data-Lake/etl.py:80-81 | a start_time is well stamped exactly when it is the udf's result for the record's ts |
| LogData.WithStartTime | Data-Lake/etl.py:81 | succeeds exactly when every ts is in the udf's range; then row i is record i with its ts's instant; on failure the error is some record's udf error |
| LogData.TimeRowOfFacts | Data-Lake/etl.py:83-89 | start_time is the UTC instant of the row's ts; hour, day, month and year are its fields, week is its ISO 8601 week (`weekofyear`) and weekday its `dayofweek` (1 = Sunday); hour 0..23, day 1..31, week 1..53, month 1..12, weekday 1..7, year 1..9999 |
| LogData.TimeRowOf | Data-Lake/etl.py:83-89 | one time row; its contract is carried by `LogData.TimeRowOfFacts` (start_time the UTC instant of ts, every calendar column that instant's, in range) |
| LogData.TimeTable | Data-Lake/etl.py:83-89 | no duplicate time row; a row appears exactly when it is some stamped record's decomposition |
| LogData.TimeTableFacts | Data-Lake/etl.py:83-89 | every time row meets the time-row facts and stems from a record; ts and start_time are each unique in the table |
| LogData.JoinOne | Data-Lake/etl.py:101 | the pairs of one record are exactly the songs whose title equals its song; duplicate-free songs give duplicate-free pairs |
| LogData.SongJoin | Data-Lake/etl.py:101 | a pair appears exactly when its record and song are in the inputs and the titles match; duplicate-free inputs give duplicate-free pairs |
| LogData.NumberPlays | Data-Lake/etl.py:102 | numbering the joined rows; its contract is carried by `LogData.NumberedSongplaysDistinctIds` and `LogData.NumberedSongplaysDescribe` (via `LogData.SongplaysAreTheMatches`) |
| LogData.TimeJoin | Data-Lake/etl.py:106-108 | the inner join on start_time; its contract is carried by `LogData.TimeJoinOneRow` and `LogData.TimeJoinOneToOne` |
| LogData.TimeJoinOneRow | Data-Lake/etl.py:106-108 | a play row meets exactly one time row when start_time is the key, and takes its own year and month |
| LogData.TimeJoinOneToOne | Data-Lake/etl.py:106-108 | when every play row finds its start_time in a time table keyed on it, the join keeps every row once, in order, with its own year and month |
| LogData.TimeTableKeyedOnStart | Data-Lake/etl.py:83-89 | the time table is keyed on start_time and holds every record's start_time |
| LogData.PlayRowsFindTheirTime | Data-Lake/etl.py:102-106 | every numbered play row's start_time is in the time table |
| LogData.NumberedSongplaysDistinctIds | Data-Lake/etl.py:102 | songplay ids increase strictly, so no row repeats |
| LogData.Songplays | Data-Lake/etl.py:101-111 | `songplays_table`; its contract is carried by `LogData.SongplaysAreTheMatches`, `LogData.SongplaysCount`, `LogData.SongplaysSound`, `LogData.SongplaysComplete` and `LogData.SongplaysMeetOneTimeRow` |
| LogData.SongplaysAreTheMatches | Data-Lake/etl.py:101-111 | the songplays are the numbered join pairs: the time join loses no row, and the final dedup removes none |
| LogData.NumberedSongplaysDescribe | Data-Lake/etl.py:102-108 | row i of the numbered songplays describes join pair i |
| LogData.SongplaysCount | Data-Lake/etl.py:101-111 | there is one songplay per matching pair (one per matching title), with strictly increasing ids |
| LogData.SongplaysSound | Data-Lake/etl.py:101-108 | every songplay describes a record and a song whose title matches its song |
| LogData.SongplaysComplete | Data-Lake/etl.py:101-108 | every record and song with matching title yield a songplay describing them |
| LogData.SongplaysMeetOneTimeRow | Data-Lake/etl.py:106-108 | every songplay's start_time is in exactly one time row, and its year and month are that row's |
| LogData.JoinOneUnmatched | Data-Lake/etl.py:101 | a record whose song matches no title joins nothing |
| LogData.SongJoinUnmatched | Data-Lake/etl.py:101 | adding an unmatched record leaves the join unchanged |
| LogData.SongJoinConcat | Data-Lake/etl.py:101 | the song join distributes over concatenation of the log |
| LogData.SongJoinWithoutUnmatched | Data-Lake/etl.py:101 | inserting an unmatched record anywhere in the log leaves the join unchanged |
| LogData.UnmatchedRecordAddsNoSongplay | Data-Lake/etl.py:101-111 | inserting a record whose song matches no title anywhere in the stamped log leaves the songplays unchanged |
| LogData.ProcessLogData | Data-Lake/etl.py:58-111 | `process_log_data` without I/O; its contract is carried by the `LogData.ProcessLogData…` lemmas below and `LogData.OtherPageContributesNothing` |
| LogData.ProcessLogDataSeesOnlyNextSongs | Data-Lake/etl.py:71-111 | the output of the log stage depends only on the NextSong records |
| LogData.OtherPageContributesNothing | Data-Lake/etl.py:71-111 | inserting a record of another page (such as Login) anywhere changes no table |
| LogData.ProcessLogDataFails | Data-Lake/etl.py:74-81 | the time and songplays tables fail exactly when some NextSong record has a null or out-of-range ts, with that record's error; the users table is built either way |
| LogData.StampedRecordsSound | Data-Lake/etl.py:81 | every stamped record comes from the input and is well stamped |
| LogData.StampedRecordsComplete | Data-Lake/etl.py:81 | every input record is stamped |
| LogData.ProcessLogDataSongplaysSound | Data-Lake/etl.py:69-111 | in a successful run, every songplay comes from a NextSong record of the log and a song of the same title, with that record's own instant |
| LogData.ProcessLogDataSongplaysComplete | Data-Lake/etl.py:69-111 | in a successful run, every NextSong record and song of the same title yield a songplay |
| LogData.ProcessLogDataTimeRows | Data-Lake/etl.py:69-89 | in a successful run, every time row is the UTC decomposition of the ts of a NextSong record of the log: start_time, hour, day, ISO week, month, year and `dayofweek` of that ts, each in range |
| LogData.ProcessLogDataSongplaysMeetTime | Data-Lake/etl.py:83-111 | in a successful run, every songplay meets exactly one time row and carries its year and month |
| LogData.ProcessLogDataSongplaysFromSongRows | Data-Lake/etl.py:101-104 | in a successful run, every songplay's song_id and artist_id are those of one row of the songs table |
| LogData.ProcessLogDataNoDuplicateRows | Data-Lake/etl.py:75-111 | the users, time and songplays tables hold no duplicate row |
| LogData.JoinOneIgnoresIds | Data-Lake/etl.py:101 | one record's join pairs, without song ids, are the same against song tables with the same rows |
| LogData.JoinOneKeysSnoc | Data-Lake/etl.py:101 | the last song row adds its pair exactly when its title matches |
| LogData.SongJoinIgnoresIds | Data-Lake/etl.py:101 | the join pairs, without song ids, are the same against song tables with the same rows |
| LogData.NumberedSongplaysIgnoreIds | Data-Lake/etl.py:102-108 | with equal pairs, numbered songplays agree except for the two ids |
| LogData.SongplaysIgnoreIds | Data-Lake/etl.py:101-111 | the songplays agree except for their ids whatever either allocator hands out |
| Etl.RunPipeline | Data-Lake/etl.py:113-119 | `main`; its contract is carried by `Etl.SongplaysReferenceSongs`, `Etl.SongplaysReferenceArtists` and `Etl.RerunsAgreeUpToIds` |
| Etl.SongplaysReferenceSongs | Data-Lake/etl.py:113-119 | every songplay of a successful run names a song row of that run whose title is a NextSong record's song, with that row's song_id and artist_id |
| Etl.SongplaysReferenceArtists | Data-Lake/etl.py:54-111 | every songplay of a successful run carries the artist_id of some row of the artists table of the same run |
| Etl.SingleCatalogRecord | Data-Lake/etl.py:45-49 | one written catalog record yields one song row, numbered with the first id |
| Etl.SingleSongTable | Data-Lake/etl.py:48-49 | one record yields the single song row holding its projection |
| Etl.SingleNextSong | Data-Lake/etl.py:69-71 | a log of one NextSong record keeps it |
| Etl.SingleRecordStamped | Data-Lake/etl.py:81 | one record is stamped with its udf result |
| Etl.SingleTimeTable | Data-Lake/etl.py:83-89 | one stamped record gives exactly its own time row |
| Etl.SingleSongJoin | Data-Lake/etl.py:101 | one record and one song of its title join to one pair |
| Etl.SingleSongplay | Data-Lake/etl.py:101-111 | one record and one matching song give exactly one songplay, with the first id |
| Etl.SingleNumberedSongplay | Data-Lake/etl.py:102-108 | one pair numbers to one songplay with the first id |
| Etl.SingleLogRecord | Data-Lake/etl.py:69-111 | one NextSong record and one matching song give one time row and one songplay |
| Etl.SingleRecordRun | Data-Lake/etl.py:113-119 | the pipeline on one catalog record and one matching event gives one song, one time row and one songplay |
| Etl.TestSongs | Data-Lake/etl.py:45-49 | the sample catalog record yields its one song row |
| Etl.OneRecordOneSongplay | Data-Lake/etl.py:113-119 | the sample run at ts 946684800000 gives time row (hour 0, day 1, week 52, month 1, year 2000, weekday 7) and one songplay with that year and month |
| Etl.TestEventStamp | Data-Lake/etl.py:80 | the sample event is stamped 2000-01-01T00:00:00Z |
| Etl.TestTimeRow | Data-Lake/etl.py:83-89 | the sample event's time row has hour 0, day 1, week 52, month 1, year 2000, weekday 7 |
| Etl.TestSongplay | Data-Lake/etl.py:102-108 | the sample songplay carries the event's user, session and the song's ids |
| Etl.SongTablesHaveSameRows | Data-Lake/etl.py:48-49 | two runs of the song stage give the same song rows, whatever the allocator |
| Etl.RerunsAgreeUpToIds | Data-Lake/etl.py:113-119 | two runs on the same inputs agree on every table except for surrogate ids, and fail together with the same error |

## Left out

- Configuration and credentials (`Data-Lake/etl.py:10-14`): process environment, no logic.
- The Spark session (`Data-Lake/etl.py:16-20`): engine setup.
- Reads and writes (`Data-Lake/etl.py:45, 51, 56, 69, 77, 91, 95-98, 111`).
  - Input arrives as sequences of parsed records.
  - The tables are returned as values.
  - `mode='overwrite'` and `partitionBy` are storage layout and are not modelled.
- The read-back of `songs/*/*/` (`Data-Lake/etl.py:95-98`): the join uses the in-memory songs table, not the parquet files written at line 51.
- `main`'s S3 paths (`Data-Lake/etl.py:115-116`): `Etl.RunPipeline` takes the data directly.
- Airflow-Data-Pipelines/exercises/plugins/__init__.py: a plugin registration with no logic; the operators it lists are not part of this model.
- Parallel and distributed execution, and lazy evaluation.
  - The model is sequential.
  - When several records have a bad `ts`, the error returned is one of theirs; which one the engine would raise first is not modelled.
- Order of rows after `dropDuplicates` and joins: the engine leaves it open. The model keeps first occurrences and input order. Lemmas stated as sequence equalities hold for that order: `Relational.FilterDistinctCommute`, `LogData.TimeJoinOneToOne`, `LogData.SongplaysAreTheMatches` (row i is pair i), `LogData.NumberedSongplaysDescribe`, `Etl.RerunsAgreeUpToIds`, `SongData.ArtistIdCanRepeat`, `LogData.UserCanRepeatWithAnotherLevel` and the single-record lemmas in `Etl`. Only their reading as sets or multisets of rows carries over to the engine.
- LogData.GetTimestamp: `int(x) / 1000` is float division and `utcfromtimestamp` rounds the quotient to microseconds; the model works on integer milliseconds with floor division. The two agree while |ts| / 1000 is below 2^33 seconds (until about year 2242). Beyond that, rounding the float quotient can move the sub-second part by a few microseconds (ts = 20000000000001 gives millisecond 0 in Python and 1 in the model); hour, day, week, month, year and weekday are unaffected.
- LogData.UdfError: `ValueError(ts)` stands for every exception Python raises for a timestamp outside its datetime range (ValueError, and OverflowError for very large values).
- Non-integral `ts` values (which `int(x)` truncates) are not modelled: `ts` is an integer or NULL.
- UTC is assumed everywhere; the engine's session time zone is not modelled.
- Spark's `weekofyear`, `dayofmonth`, `month` and `year` on dates before 1582 follow a hybrid Julian calendar in older Spark versions. The model uses the proleptic Gregorian calendar throughout.
- Doubles (`duration`, latitude, longitude) are exact `real`s compared only for equality; NaN and signed zero are not modelled. An integer token in a DoubleType column becomes `i as real` exactly, with no rounding to the nearest double once |i| > 2^53.
- The surrogate-id bit layout of `monotonically_increasing_id`: only strictly increasing ids per table are assumed (`Relational.Allocator`).
- Schema inference of the log read (`Data-Lake/etl.py:69`): `LogData.Event` fixes the columns the program uses, with every other column kept as raw JSON in `others`.
- artist_id and user_id are not keys of their tables: duplicates are removed on the whole row, so an id can repeat (`SongData.ArtistIdCanRepeat`, `LogData.UserCanRepeatWithAnotherLevel`).
- The catalog reader follows Spark 3.0 and later: a field the schema cannot type reads as NULL for that field alone, not as an error, and the rest of the record is kept (`Schema.ReadToken`). Spark 2.x (which the `hadoop-aws:2.7.0` package at `Data-Lake/etl.py:19` suggests) sets every field of such a record to NULL; that behaviour is not modelled.
- Schema.ReadToken: a number token written with a fraction or exponent (a `JFloat`, such as `200.0`) in a StringType column reads as NULL in the model, where Spark reads it as the text Java prints for the double (such as `200.0` or `1.0E10`); the model's reals have no such text.
- Schema.ReadToken: the strings Spark accepts as non-finite doubles in a DoubleType column (`NaN`, `Infinity`, `-Infinity`, and in newer versions also `+INF`, `+Infinity`, `INF` and `-INF`) read as NULL in the model, which has no non-finite values.
- The users table is written before the udf can fail (`Data-Lake/etl.py:77`, before the time table is computed and written at lines 81-91), so `LogData.LogOutput` keeps the users table when the time and songplays tables fail.
- LogData.Event: two log records are equal in the model only when their `others` maps are equal. Spark's rows with an inferred schema also treat a missing key as JSON null and widen an integer in a double column, so the dedup at `Data-Lake/etl.py:69` can merge records the model keeps apart. Records are assumed to carry one key set, with missing keys as explicit nulls and numbers in one kind per column.
