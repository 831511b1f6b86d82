# Vermessung activity log: a Dafny model

The repository is a small activity log for survey field staff. An entry
records that an employee did an activity on a site (`site_name`) for a cost
centre (`kst`) on a date. It takes a share of the workday (the *day
fraction*), given directly or computed from a start and an end time. The
repository holds several near-duplicate variants of this log, each a Qt
window over an SQLite table. This project models the logic inside them,
variant by variant, as the code is written. The variants are not unified: they
round differently and check differently, and those differences are part of
what is proved.

| variant | Dafny modules |
|---|---|
| `src/` (`utils.py`, `models.py`, `storage.py`, `main.py`) | `Utils`, `Models`, `Storage`, `SrcMain` |
| top level, time shares (`config.py`, `db.py`, `main.py`) | `Config`, `ActivityDb`, `LegacyApp` |
| top level, day fractions (`database.py`, `app.py`) | `LogDb`, `FormApp` |
| `vermessung_log/` (`database.py`, `exporter.py`, `app.py`) | `Manager`, `Exporter`, `VermessungApp` |

Shared modules restate what the code relies on:

- `PyNum`: Python's `round` (half to even), `round(x, n)`, `math.ceil`, `f"{x:.2f}"` and `float(text)`.
- `Sql`: SQLite's value order, `WHERE`, `ORDER BY` as a stable sort on a key, `LIMIT`, `DISTINCT`, and `GROUP BY` with `SUM`.
- `Text`: digits, zero padding, `str.strip()` and SQLite's BINARY text order.
- `Calendar`: dates, times of day, ISO date text and `HH:MM` text.
- `Output`: CSV cells.
- `Wrappers`: `Option` and `Result`.

How the model represents things:

- **Stores.** Each store is a `class` holding its rows as a `seq` and the AUTOINCREMENT counter as `nextId`.
  - Inserts, updates and deletes are methods that reassign the rows.
  - Every query is a function of the rows.
- **Loops.** Loops in the source stay loops, with their invariants. Examples: the bucket loop and the row writers of `export_csv`, the OneDrive lookup of `_resolve_data_dir`, and the cache scan of `_existing_created_at`.
- **Windows.** A window's state (the id being edited, the cached entries, the rounding step) is a class. A handler is a method that takes the widget values as a `Form` value.
- **Numbers.** Numbers are exact `real`s. Times of day are microseconds since midnight, as Python's `time` has them.
- **Timestamps.** Timestamps such as `created_at` are integers that stand for their ISO text. Their order is the order of the text.
- **Errors.** Errors the code raises or reports in a message box are the `Err` values of a `Result`.


Where the system's design description and the code differ, the model follows the code:

- Python's `round` sends ties to the even neighbour, not away from zero, and app.py rounds up with `math.ceil`.
- Nothing in `src` checks that a computed fraction is positive: one minute on an eight-hour day is stored as 0.0.
- The fraction mode of `vermessung_log` has no lower bound at all.
- app.py checks a given fraction before rounding it up, so a coarse step can store more than 1.0.
- `distinct_values` in `vermessung_log` answers `[]` for an unsupported field instead of failing.
- database.py's `get_distinct_values` does not accept `employee`.
- Update and delete of an unknown id are silent no-ops, not errors.

## Model

| member | source | states |
|---|---|---|
| Utils.DurationHours | src/utils.py:12-14 | the hours between the two times of one day; positive when the end lies after the start |
| Utils.CalculateDayFraction | src/utils.py:7-19 | a reversed or empty interval is the time-order error whatever the workday; a non-positive workday is the second error; a zero step is the ZeroDivisionError; no other input fails |
| Utils.CalculateDayFractionNearest | src/utils.py:17-19 | on success the raw fraction is positive, the snapped value is a multiple of the step no farther from it than any other multiple, and the result is that value to two decimals, within 0.005 of it |
| Utils.CalculateDayFractionAboveOne | src/utils.py:17-19 | 08:00 to 16:30 on an eight-hour day with step 0.05 gives 1.05: there is no upper bound |
| Utils.ParseTimeString | src/utils.py:22-29 | blank or whitespace-only text is `None`; otherwise the stripped text must read as `HH:MM`, else it is an error |
| Utils.ParseTimeStringFormat | src/utils.py:26-27 | a time rendered as `HH:MM` reads back as that time without its seconds |
| Config.TimeSharesTenths | config.py:25 | the time shares are exactly the tenths 0.1 to 1.0, each in (0, 1], strictly increasing |
| Config.RoundDigitsTenths | config.py:25 | `round(i / 10, 1)` leaves a whole number of tenths unchanged |
| Config.FallbackHomeDir | config.py:28-37 | the fallback directory is the home directory joined with "TBC" |
| Models.WithCreatedAt | src/main.py:320 | `replace(entry, created_at=t)` sets the creation time and changes no other field |
| Calendar.MonthBounds | src/storage.py:203-207 | the first of the month and the first of the next month, December rolling into January of the next year; `None` exactly where Python's `date` raises |
| Calendar.MonthBoundsSelectMonth | src/storage.py:203-212 | a date lies in the half-open month range exactly when it has that year and month |
| Calendar.ParseIsoDate | src/storage.py:78 | `strptime` with `%Y-%m-%d` reads an ISO date back as that date |
| Calendar.IsoDateOrder | src/storage.py:212 | ISO date texts compare as text exactly like the dates |
| Calendar.IsoDateInMonth | src/storage.py:212-216 | the text comparison `date >= lo AND date < hi` against the month's ISO bounds selects exactly the dates of that month |
| Calendar.IsoDateMonthPrefix | database.py:105 | `substr(date, 1, 7)` of an ISO date equals `f"{year:04d}-{month:02d}"` exactly when the date is in that month |
| Calendar.StrftimeMonthYearMatch | db.py:115 | `strftime('%m')` and `strftime('%Y')` match the parameters exactly for dates of that month and year, and never for years written with fewer than four digits |
| Calendar.ParseFormatHHMM | src/storage.py:72 | a time written with `%H:%M` reads back with `%H:%M` as the same hour and minute, seconds dropped |
| Calendar.FormatHHMMOrder | vermessung_log/database.py:87-92 | `HH:MM` texts compare as text like the times cut to the minute, so ordering by the stored start time orders by time |
| Calendar.TruncateToMinute | vermessung_log/app.py:270-271 | the time with its seconds dropped: at most the time, less than a minute below it, a whole minute |
| Calendar.MonthStemDigits | src/main.py:389 | `f"{year}_{month:02d}"` is the year's digits, an underscore and two digits that read back as the month |
| Storage.ParseTime | src/storage.py:67-72 | NULL and the empty text are no time; any other text must read as `HH:MM`, else it is an error |
| Storage.FormatTime | src/storage.py:108-109 | a time is written as `HH:MM` and only a missing time as NULL; midnight is a time |
| Storage.ParseFormatTime | src/storage.py:67-72 | a written time always reads back, and unchanged when it is a whole minute |
| Storage.RowToEntry | src/storage.py:75-90 | a row reads as an entry exactly when its date and both times parse; the id is the row's and a NULL note becomes "" |
| Storage.ToRow | src/storage.py:93-117 | the columns written for an entry: the date as ISO text and the note as given |
| Storage.RowRoundTrip | src/storage.py:75-117 | an inserted entry with whole-minute times reads back with the store's id and every other field unchanged |
| Storage.ToRowReadable | src/storage.py:93-117 | whatever its times, a written row reads back |
| Storage.UpdatedRow | src/storage.py:120-144 | the updated row is the entry written under the row's id with the row's own `created_at` |
| Storage.UpdatedRowReads | src/storage.py:120-144 | an updated row reads back as the entry with the row's id and the row's creation time |
| Storage.UpdatedTable | src/storage.py:122-128 | UPDATE keeps the number of rows and every row's id |
| Storage.UpdatedTableValid | src/storage.py:122-128 | UPDATE keeps every row readable, every id below the counter and the ids increasing |
| Storage.DuplicateOf | src/storage.py:175-190 | the copy has no id, one fresh time for both timestamps, the new date when given and otherwise the original's fields |
| Storage.MonthRange | src/storage.py:203-207 | the ISO texts of the month's two bounds, `None` exactly where `date` raises |
| Storage.InRangeMonth | src/storage.py:212-216 | the month's WHERE clause selects a written row exactly when its date is in that month |
| Storage.DayEntries | src/storage.py:152-158 | exactly the entries of rows with that date text, each read back, in ascending creation time |
| Storage.MonthKeysReadable | src/storage.py:212-220 | every grouped date of the month's rows reads back, writes back to the same text and lies in that month |
| Storage.SummaryOrdered | src/storage.py:214 | groups sorted by date text give summary rows in calendar order |
| Storage.SiteTotals | src/storage.py:236-246 | one total per site and cost centre present, each once, ascending by site, each the SUM of its rows with NULL as 0.0 |
| Storage.SiteTotalsReconcile | src/storage.py:201-246 | each site total equals the sum of that site's and cost centre's daily summary totals |
| Storage.SummaryLineReads | src/storage.py:257-262 | a detail line gives back the row's date, site, cost centre and the total rounded to cents |
| Storage.TotalLineReads | src/storage.py:266-267 | a total line gives back the site, cost centre and the total rounded to cents |
| Storage.MonthReport | src/storage.py:255-267 | header, one line per summary row, an empty line, the block title and header, one line per site total |
| Storage.MonthReportReadsBack | src/storage.py:255-267 | every detail line reads back as its row's date and cents total, every total line as its cents total |
| Storage.WriteMonthReport | src/storage.py:253-267 | the writer's two loops produce exactly the report's lines |
| Storage.LogEntriesTable.constructor | src/storage.py:44-64 | a new table is empty and numbers from 1 |
| Storage.LogEntriesTable.Insert | src/storage.py:93-117 | the entry is appended under the next id, which exceeds every id in the table; the counter advances |
| Storage.LogEntriesTable.Update | src/storage.py:120-144 | the row with that id becomes the updated row, keeping its `created_at`; every other row stays |
| Storage.LogEntriesTable.Delete | src/storage.py:147-149 | exactly the rows with other ids remain, in order; an unknown id changes nothing |
| Storage.LogEntriesTable.GetRow | src/storage.py:171 | the row with that id, `None` exactly when there is none |
| Storage.LogEntriesTable.FetchEntriesForDate | src/storage.py:152-158 | every entry has that date, creation times ascend, every row of that date is listed, and nothing else |
| Storage.LogEntriesTable.FetchLastEntry | src/storage.py:161-166 | `None` exactly for an empty table; otherwise a stored entry with the largest creation time |
| Storage.LogEntriesTable.Duplicate | src/storage.py:169-191 | `None` and no change for an unknown id; otherwise the copy is inserted under the next id |
| Storage.LogEntriesTable.FetchDistinctSitesAndKsts | src/storage.py:194-198 | each non-empty site and each non-empty cost centre of the table, once |
| Storage.LogEntriesTable.MonthRows | src/storage.py:212 | the rows whose date text lies in the half-open range |
| Storage.DaySummary | src/storage.py:208-226 | each (date, site, cost centre) of the month's rows in exactly one row, and no other; each row in the month, with the SQL sum of the group's fractions (NULL read as 0.0); ordered by date and, within a date, by site |
| Storage.LogEntriesTable.MonthlySummary | src/storage.py:201-226 | `None` exactly where `date` raises; otherwise `DaySummary` of exactly the rows in the month's half-open date range |
| Storage.LogEntriesTable.MonthlyTotalsBySite | src/storage.py:229-246 | `None` exactly where `date` raises; otherwise the site totals of the month's rows |
| Storage.LogEntriesTable.MonthlyTotalsReconcile | src/storage.py:201-246 | each monthly site total is the sum of the matching rows of the monthly summary |
| Storage.LogEntriesTable.ExportMonthToCsv | src/storage.py:249-267 | nothing is written where `monthly_summary` raises; otherwise the month report of the two queries |
| LogDb.RoundToStep | database.py:148-152 | a step of zero or below returns the value unchanged; otherwise the result is within half a cent of the nearest multiple of the step |
| LogDb.RoundToStepNearest | database.py:151-152 | with a positive step the result is within half a cent of `round(value / step) * step`, and that multiple is as near the value as any other |
| LogDb.RoundToStepCents | database.py:151-152 | for a step of whole cents the cents rounding changes nothing: the result is exactly the nearest multiple |
| LogDb.UpdateKeepsCreatedAt | database.py:59-64 | an update whose dict does not name `created_at` keeps the row's `created_at`, sets `updated_at` and keeps every column the dict does not name |
| LogDb.AssignedWellFormed | database.py:61-64 | assigning defined values to named columns keeps a row admitted by the schema, with its id |
| LogDb.AppendedRowValid | database.py:53-57 | inserting a complete row under an unused id keeps every row admitted, ids distinct and below the counter |
| LogDb.UpdatedRows | database.py:64 | the UPDATE keeps the number of rows and each row's id |
| LogDb.UpdatedRowsValid | database.py:64 | an UPDATE that sets no NOT NULL column to NULL keeps every row admitted and the ids distinct |
| LogDb.InMonthMeaning | database.py:105 | the `substr(date, 1, 7)` filter selects a row holding an ISO date exactly when the date is in that month |
| LogDb.DictsOrdered | database.py:78 | rows sorted by `start_time IS NULL, start_time` give dicts with timed rows first, ascending by start time |
| LogDb.ValuesAscending | database.py:96 | a sorted list free of duplicates is strictly ascending |
| LogDb.LogDatabase.constructor | database.py:26-47 | a new table is empty and numbers from 1 |
| LogDb.LogDatabase.AddEntry | database.py:49-57 | both timestamps of the caller's dict become `now`; an unknown key, a bad or taken id or a NULL in a NOT NULL column fails and stores nothing; otherwise the row is appended and its id returned, the counter's value when the dict names none |
| LogDb.LogDatabase.UpdateEntry | database.py:59-64 | the caller's dict gets `updated_at` and `id`; an unknown key fails and changes nothing; otherwise only the row with that id takes the named columns |
| LogDb.LogDatabase.DeleteEntry | database.py:66-68 | exactly the rows with other ids remain; an unknown id is no error |
| LogDb.LogDatabase.EntriesForDate | database.py:70-82 | the dicts of exactly the rows with that date text, timed rows first and ascending by start time, untimed rows last |
| LogDb.LogDatabase.LastEntry | database.py:84-90 | `None` exactly for an empty table; otherwise the row with the largest id |
| LogDb.LogDatabase.DistinctValues | database.py:92-97 | an error exactly outside `site_name`, `kst` and `activity`; otherwise each non-null, non-empty value of the column once, strictly ascending |
| LogDb.LogDatabase.MonthRows | database.py:104-105 | the rows whose date text starts with `f"{year:04d}-{month:02d}"` |
| LogDb.LogDatabase.MonthlySummary | database.py:99-111 | one row per date and cost centre of the month, each once, ascending, each with the SQL sum of its day fractions |
| LogDb.LogDatabase.MonthlyTotalsBySite | database.py:113-125 | one row per cost centre of the month, each once, ascending, each with the SQL sum of its day fractions |
| LogDb.LogDatabase.MonthlyTotalsReconcile | database.py:99-125 | each cost centre's monthly total, NULL read as zero, equals the sum of that cost centre's summary rows |
| Manager.UpdatedData | vermessung_log/database.py:57-76 | the updated row keeps its `created_at`, takes the payload's `updated_at`, and apart from `created_at` equals the payload |
| Manager.DayOrderMeaning | vermessung_log/database.py:89 | `ORDER BY start_time IS NULL, start_time, created_at` puts rows with a start time first, by start-time text, then by creation time |
| Manager.MonthTextBounds | vermessung_log/database.py:108-113 | the two date texts are the ISO texts of the month's first day and of the next month's first day, December rolling into January |
| Manager.FirstOfMonthText | vermessung_log/database.py:109 | `f"{year:04d}-{month:02d}-01"` is the ISO text of the first of the month for four-digit years |
| Manager.MonthRangeSelects | vermessung_log/database.py:108-116 | the range query selects a row holding an ISO date exactly when the date lies in that month |
| Manager.December9999SelectsNothing | vermessung_log/database.py:110-111 | for December 9999 the end text "10000-01-01" sorts before the start text, so no date text is selected |
| Manager.MonthOrderMeaning | vermessung_log/database.py:115 | the `date, site_name, kst` key orders two rows by date text, then site, then cost centre |
| Manager.MonthOrderRows | vermessung_log/database.py:115 | rows sorted by that key are in that order pairwise |
| Manager.DatabaseManager.constructor | vermessung_log/database.py:8-36 | a new table is empty and numbers from 1 |
| Manager.DatabaseManager.GetEntry | vermessung_log/database.py:83-85 | `None` exactly when no row has that id; otherwise the row with that id |
| Manager.DatabaseManager.InsertEntry | vermessung_log/database.py:38-55 | the thirteen columns are stored as given under the counter's id, which is returned and larger than every earlier id; the new row is found by that id |
| Manager.DatabaseManager.UpdateEntry | vermessung_log/database.py:57-77 | the number of rows and the counter stay; the row with that id takes the payload's columns except `created_at`; every other row is unchanged |
| Manager.DatabaseManager.DeleteEntry | vermessung_log/database.py:79-81 | exactly the rows with other ids remain, in order; the id is then unknown; an unknown id is no error |
| Manager.DatabaseManager.EntriesForDate | vermessung_log/database.py:87-92 | the rows of exactly that date, each as often as stored, rows with a start time first by start time, ties and untimed rows by creation time |
| Manager.DatabaseManager.LatestEntry | vermessung_log/database.py:94-98 | `None` exactly for an empty table; otherwise a row whose `created_at` is at least every row's |
| Manager.DatabaseManager.DistinctValues | vermessung_log/database.py:100-106 | `[]` for a column outside the four accepted; otherwise each non-empty value of that column once |
| Manager.DatabaseManager.EntriesForMonth | vermessung_log/database.py:108-118 | the rows whose date text lies in the month's text range, each as often as stored, ordered by date text, then site, then cost centre |
| Exporter.MonthlyReconcilesDaily | vermessung_log/exporter.py:20-29 | every monthly total equals the sum of the daily totals of the same site and cost centre |
| Exporter.GrandTotals | vermessung_log/exporter.py:20-29 | the daily totals and the monthly totals each add up to the sum of all the entries' fractions, a missing fraction counting as 0 |
| Exporter.DailyKeysIncrease | vermessung_log/exporter.py:51 | the daily rows come in strictly increasing (date, site, cost centre) tuple order |
| Exporter.MonthlyKeysIncrease | vermessung_log/exporter.py:57 | the monthly rows come in strictly increasing (site, cost centre) tuple order |
| Exporter.BucketsAreKeys | vermessung_log/exporter.py:26-29 | every bucket is the key of some entry and every entry's key is a bucket |
| Exporter.DetailRow | vermessung_log/exporter.py:36-46 | a detail row has the seven columns of the header |
| Exporter.ReportLayout | vermessung_log/exporter.py:34-58 | the file holds the header, one row per entry, a blank row, the daily title and header, one row per daily bucket, a blank row, the monthly title and header and one row per monthly bucket, at the positions that follow |
| Exporter.DailyRowReads | vermessung_log/exporter.py:52 | a daily row holds the bucket's date, site and cost centre, and a total that parses back to the total rounded to cents |
| Exporter.MonthlyRowReads | vermessung_log/exporter.py:58 | a monthly row holds the bucket's site and cost centre, and a total that parses back to the total rounded to cents |
| Exporter.BucketStep | vermessung_log/exporter.py:28-29 | one `+=` on a `defaultdict(float)` keeps each bucket equal to the sum of the fractions seen so far, and the insertion order equal to the first occurrences |
| Exporter.AddToBucket | vermessung_log/exporter.py:28-29 | after row n the buckets hold the sums over the first n + 1 rows |
| Exporter.Accumulate | vermessung_log/exporter.py:23-30 | the loop keeps every entry in order and leaves one bucket per key, holding that key's sum over all entries |
| Exporter.SortedBuckets | vermessung_log/exporter.py:51-58 | sorting the dict's items gives the distinct keys of the input in tuple order, each with its bucket sum |
| Exporter.WriteDetail | vermessung_log/exporter.py:35-46 | the detail loop appends exactly the detail rows of the entries |
| Exporter.WriteDaily | vermessung_log/exporter.py:51-52 | the daily loop appends exactly the daily rows of the sorted buckets |
| Exporter.WriteMonthly | vermessung_log/exporter.py:57-58 | the monthly loop appends exactly the monthly rows of the sorted buckets |
| Exporter.MonthExporter.constructor | vermessung_log/exporter.py:14-16 | the exporter keeps its output directory |
| Exporter.MonthExporter.ExportCsv | vermessung_log/exporter.py:18-60 | the path is `monatsbericht_<label>.csv` in the output directory, and the rows written are the report of the entries |
| ActivityDb.ValidateEntry | db.py:160-164 | accepted exactly when the activity is configured and the share is an allowed one; an unknown activity is reported first, then an unknown share |
| ActivityDb.AcceptedTimeShare | db.py:163-164 | an accepted time share is k/10 for some k from 1 to 10 |
| ActivityDb.FirstSet | db.py:25-28 | a name set to a non-empty value with no set name before it in the list; `None` exactly when no name is set |
| ActivityDb.DataDirChoice | db.py:24-30 | `OneDrive`, then `OneDriveCommercial`, then `OneDriveConsumer` gives `<value>/TBC`; with none of them set the data directory is `~/TBC` |
| ActivityDb.ResolveDataDir | db.py:24-30 | the loop with its early return gives the data directory `DataDir` chooses |
| ActivityDb.InPeriodMeaning | db.py:115-116 | the `strftime` filter picks a row exactly when its date has that month and year, and never for a year below 1000 |
| ActivityDb.NewestFirstMeaning | db.py:117 | rows ordered by `timestamp DESC` have non-increasing timestamps |
| ActivityDb.LimitKeepsNewest | db.py:117-118 | a row cut by `LIMIT` is no newer than any row kept |
| ActivityDb.LimitNewest | db.py:117-119 | the rows kept are drawn from the selection, and a row whose copies are not all kept is no newer than any row kept |
| ActivityDb.StatisticsOf | db.py:153-157 | every employee with rows appears once with the sum of their shares, the largest total first |
| ActivityDb.StatisticsInPeriod | db.py:153-157 | the same for the rows of the month and year |
| ActivityDb.TotalsDescending | db.py:155 | pairs ordered by `total_time DESC` have non-increasing totals |
| ActivityDb.TextsAscending | db.py:123 | distinct texts ordered ascending are strictly increasing |
| ActivityDb.StatisticsPermutation | db.py:155 | reordering the grouped totals keeps each employee once, with its total |
| ActivityDb.ExportRow | db.py:129-146 | eleven cells in header order, starting with the id and the ISO date, with the share in the seventh |
| ActivityDb.WriteExport | db.py:143-146 | the writer emits the header, then each fetched row's export row, in order |
| ActivityDb.Database.constructor | db.py:43-66 | a new table is empty and numbers from 1 |
| ActivityDb.Database.AddEntry | db.py:68-105 | the row is appended under the counter's id, which is returned and larger than every earlier id; the timestamp is `now` and the flag 0 or 1 |
| ActivityDb.Database.Selected | db.py:112-116 | without a truthy month and year all rows; with them exactly the rows of that period |
| ActivityDb.Database.FetchRecentEntries | db.py:107-119 | at most `limit` rows (all rows for a negative limit), drawn from the selection, newest first, and none left out that is newer than one kept |
| ActivityDb.Database.DistinctSites | db.py:121-124 | each stored site exactly once, strictly ascending |
| ActivityDb.Database.TimeShareStatistics | db.py:150-157 | each employee with rows in the month exactly once, with the sum of their shares, the largest total first |
| ActivityDb.Database.ExportCsv | db.py:126-148 | the path given, else the export path; the header and one row per entry of `fetch_recent_entries(limit=10000)`, so at most 10001 lines |
| FormApp.EffectiveStep | app.py:365 | a step of 0.0 falls back to the default; any other step is kept, so the step used is never 0 |
| FormApp.RoundFractionUp | app.py:364-367 | for a step of whole cents the result is the least multiple of the step not below the value: at least the value, less than one step above it, and at most any multiple not below the value |
| FormApp.RoundFractionZeroStep | app.py:365 | a step of 0 rounds as the default step of 0.05, to less than 0.05 above the value |
| FormApp.IntervalHours | app.py:324-326 | an end after the start gives a positive number of hours |
| FormApp.FractionSources | app.py:345-356 | in fraction mode a positive spin value decides alone (the text field does not change the outcome) and is accepted iff at most 1.0; with the spin at zero a blank text means no fraction |
| FormApp.IntervalData | app.py:318-343 | an error exactly when the end is not after the start, or when the rounded-up fraction exceeds 1.0; otherwise the stripped texts, both times as `HH:mm`, the positive duration and the rounded fraction |
| FormApp.GivenFractionData | app.py:344-361 | an unparsable text, a fraction of 0 or below, and one above 1.0 each fail with their own error; otherwise the stripped texts with no times and the fraction rounded up |
| FormApp.CollectFormData | app.py:294-362 | a missing required field fails first; otherwise the result of the chosen mode's branch, always with the date text as rendered and the other texts stripped |
| FormApp.RoundedShareWithin | app.py:326-335 | an accepted positive share lies between the raw share and one step above it, and the hours do not exceed the workday |
| FormApp.IntervalWithinWorkday | app.py:318-343 | an accepted interval with a positive workday stores a fraction between the raw fraction and one step above it, at most 1.0, and the interval does not exceed the workday |
| FormApp.RoundFractionOverOne | app.py:364-367 | with a step of 0.3 a fraction of 0.95 is rounded up to 1.2 |
| FormApp.SpinFractionAccepted | app.py:344-361 | a complete form in fraction mode with a spin value in (0, 1] is accepted with that value rounded up |
| FormApp.FractionModeExceedsOne | app.py:351-359 | the bound is checked before rounding, so a form can store a fraction above 1.0 (0.95 with a step of 0.3 is stored as 1.2) |
| FormApp.MainWindow.constructor | app.py:86-90 | a new window edits nothing and uses the default step |
| FormApp.MainWindow.UpdateRounding | app.py:277-278 | the step becomes the spin box's value; the edit id stays |
| FormApp.MainWindow.LoadSelected | app.py:400-410 | a truthy id whose row exists becomes the edit id; otherwise nothing changes |
| FormApp.MainWindow.SaveEntry | app.py:369-379 | a rejected form changes nothing and calls nothing; otherwise the entry being edited is updated, or a new one inserted, with the collected data, and editing ends |
| FormApp.DuplicateRecord | app.py:455-459 | the copy has the record's keys without `id`, `created_at` and `updated_at`, plus `date`; `date` holds the selected date and every other key keeps its value |
| FormApp.ExportFileNameMonth | app.py:483 | the proposed name is `monatsbericht_`, the month stem and `.csv` |
| FormApp.SummaryLineReads | app.py:493 | a summary line's total reads back as the total rounded to cents |
| FormApp.TotalLineReads | app.py:497 | a total line holds the site and cost centre, and a total that reads back as the total rounded to cents |
| FormApp.MonthReport | app.py:491-497 | the header, one line per summary row, an empty line, the totals header and one line per site total, at those positions |
| FormApp.MonthReportReadsBack | app.py:491-497 | every number written reads back as its total rounded to cents |
| FormApp.WriteMonthReport | app.py:489-497 | the writer's two loops give exactly the report's lines |
| VermessungApp.EmployeeOf | vermessung_log/app.py:246 | the stripped typed name when it is not empty, else the login name |
| VermessungApp.NotesOf | vermessung_log/app.py:251 | `None` exactly for blank notes, else the stripped notes |
| VermessungApp.TimeData | vermessung_log/app.py:264-309 | an error exactly when the minutes do not increase; then a division by zero exactly for a zero workday or step; otherwise accepted exactly when the fraction rounded to the nearest step is at most 1.0, stored with both times and both amounts rounded to three decimals |
| VermessungApp.FractionData | vermessung_log/app.py:281-309 | an error exactly when the text does not parse; accepted exactly when the parsed value is at most 1.0, stored with no times, the value and its share of the workday rounded to three decimals |
| VermessungApp.CollectEntryData | vermessung_log/app.py:244-314 | a missing required field fails first; otherwise the chosen mode's branch, with the form's texts and `created_at == updated_at == now` |
| VermessungApp.SameMinuteRejected | vermessung_log/app.py:270-274 | an interval within one minute is rejected, whatever its seconds |
| VermessungApp.IntervalFractionNearest | vermessung_log/app.py:276-277 | for a positive step the fraction is at least as near the share of the workday as any other multiple of the step |
| VermessungApp.IntervalAccepted | vermessung_log/app.py:264-308 | an accepted interval has increasing minutes, a non-zero workday and step, a fraction of at most 1.0, and stores that fraction rounded to three decimals |
| VermessungApp.AnyFractionUpToOne | vermessung_log/app.py:282-290 | fraction mode has no lower bound: any parsed value up to 1.0, zero and negative ones included, is accepted |
| VermessungApp.MainWindow.constructor | vermessung_log/app.py:44 | a new window edits nothing |
| VermessungApp.MainWindow.LoadSelectedEntry | vermessung_log/app.py:366-375 | a selected id whose row exists becomes the edit id; otherwise the edit id stays |
| VermessungApp.MainWindow.StoreEntry | vermessung_log/app.py:321-328 | with nothing edited the entry is appended under the counter's id; otherwise only the edited row takes the entry, keeping its `created_at`, with `updated_at` the save time; editing ends |
| VermessungApp.MainWindow.SaveEntry | vermessung_log/app.py:316-330 | a rejected form changes nothing; an accepted new entry is appended; the edited row becomes exactly `UpdatedData` of the collected data with the save time, keeping its `created_at`; no other row changes |
| VermessungApp.MainWindow.DuplicateSelectedEntry | vermessung_log/app.py:403-418 | with no selection or no such row nothing changes; otherwise a copy of the row on the selected date, created and updated now, is appended under the counter's id |
| SrcMain.EmployeeOf | src/main.py:261 | the stripped typed name when it is not empty, else the login name |
| SrcMain.CommaToDot | src/main.py:284 | same length, no comma left, every other character unchanged |
| SrcMain.TimedAmounts | src/main.py:273-279 | `calculate_day_fraction`'s errors pass through; otherwise accepted exactly when the fraction is at most 1.0, with the times as entered |
| SrcMain.FractionAmounts | src/main.py:280-290 | an unparsable text, a value of 0 or below, and one above 1.0 each fail with their own error; otherwise the parsed value with no times |
| SrcMain.ChosenAmounts | src/main.py:273-290 | an accepted amount is at most 1.0; in fraction mode it is positive with no times; in start/end mode it has the entered times with the start before the end |
| SrcMain.BuildEntry | src/main.py:259-310 | a missing required field fails first; then the mode's error; otherwise an entry without id on the form's date, texts stripped, employee defaulted, created and updated at `now`, with the mode's times and fraction |
| SrcMain.BuiltEntryBounds | src/main.py:273-293 | a built entry has a fraction of at most 1.0; in fraction mode it is positive with no times; in start/end mode the interval is not empty |
| SrcMain.IntervalZeroFractionAccepted | src/main.py:273-279 | start/end mode has no lower bound: 08:00 to 08:01 on an eight-hour day with step 0.05 is stored with fraction 0.0 |
| SrcMain.IntervalAboveOneRejected | src/main.py:278-279 | 08:00 to 16:30 on an eight-hour day is rejected as above 1.0 |
| SrcMain.CommaToDotHundredths | src/main.py:284 | replacing the comma of a two-decimal numeral gives the numeral with a decimal point |
| SrcMain.CommaFractionAccepted | src/main.py:283-290 | a fraction from 0,01 to 1,00 written with a decimal comma is accepted as that value |
| SrcMain.FirstCreatedAt | src/main.py:330-334 | `None` exactly when no cached entry has that id; otherwise the creation time of the first one that has |
| SrcMain.ReportNamesStem | src/main.py:389-396 | `report_<stem>.csv` and `monatsbericht_<stem>.xlsx` carry the month stem between their prefix and extension |
| SrcMain.LogApp.constructor | src/main.py:246-249 | a new window edits nothing and caches the entries of its start date |
| SrcMain.LogApp.LoadEntries | src/main.py:246-249 | the entries of the day are cached and editing ends |
| SrcMain.LogApp.ExistingCreatedAt | src/main.py:330-334 | the loop returns the creation time of the first cached entry with that id, else the clock reading |
| SrcMain.LogApp.EditSelected | src/main.py:346-353 | a truthy id of a cached entry becomes the edit id; otherwise nothing changes |
| SrcMain.LogApp.CommitEntry | src/main.py:319-328 | while editing, the edited row takes the entry with the cached creation time, keeps its stored `created_at` and no other row changes; otherwise the entry is appended; editing ends and the day is reloaded |
| SrcMain.LogApp.SaveEntry | src/main.py:312-328 | a rejected form changes nothing; otherwise a new entry is appended, or the edited row becomes exactly `UpdatedRow` of the built entry (with the cached creation time), so it takes every form value and the save time and keeps its `created_at`; no other row changes; the day is reloaded |
| LegacyApp.ValidateInputs | main.py:182-189 | a blank site, then a stripped result under five characters, then a blank employee; `None` exactly when all three pass |
| LegacyApp.ShortResultRejected | main.py:185-186 | a result text under five characters is rejected, whatever surrounds it |
| LegacyApp.CorrectsId | main.py:210 | the spin box's 0 means no id; any other value is the id |
| LegacyApp.SavedRowAccepted | main.py:197-211 | a row saved from an accepted form has a non-empty stripped site, a result of at least five characters, a configured activity, a share of k/10 with k from 1 to 10, and the correction flag exactly for the second option |
| LegacyApp.SaveEntry | main.py:191-213 | the form checks first, then `validate_entry`, each error reported as it was found and nothing stored; otherwise one row is appended under the counter's id |
| PyNum.Ceil | app.py:366 | `math.ceil`: the least integer not below the value |
| PyNum.RoundHalfEven | src/utils.py:18 | `round(x)` is within one half of x, and on an exact half it is the even neighbour |
| PyNum.RoundHalfEvenUnique | src/utils.py:18 | any integer within one half of x, and even on a tie, is `round(x)` |
| PyNum.RoundHalfEvenNearest | src/utils.py:18 | no integer is nearer to x than `round(x)` |
| PyNum.RoundHalfEvenNegate | src/utils.py:19 | `round(-x) == -round(x)` |
| PyNum.RoundDigits | src/utils.py:19 | `round(x, digits)` is a whole number of units of `10^-digits`, that number being `round` of x scaled up (so the nearest, even at a tie), and within half a unit of x |
| PyNum.RoundToMultipleNearest | database.py:151 | for a positive step, `round(x / step) * step` is at least as near x as any multiple of the step |
| PyNum.RoundToMultipleIdempotent | vermessung_log/app.py:277 | snapping a snapped value to the same step changes nothing |
| PyNum.CeilToMultipleLeast | app.py:366 | `math.ceil(x / step) * step` is at least x, less than one step above it, and not above any multiple of the step that is at least x |
| PyNum.RoundDigitsHundredths | app.py:367 | rounding a whole number of cents to two digits changes nothing |
| PyNum.ParseFloatUnpadded | src/main.py:284 | for text without surrounding whitespace `float` reads the signed numeral itself |
| PyNum.RoundDigitsBySign | src/utils.py:19 | two-digit rounding rounds the magnitude and keeps the sign |
| PyNum.SignedHundredthsReads | src/main.py:284 | a signed numeral with two decimals reads back as its number of hundredths |
| PyNum.FormatFixed2RoundTrip | vermessung_log/exporter.py:52 | reading the `:.2f` text back with `float` gives the value rounded to two digits |
| Sql.KeyLessNum | database.py:78 | on one numeric key, ascending order compares by `<` and descending order by `>` |
| Sql.InsertByKey | database.py:78 | inserting into a sorted list adds exactly that one element |
| Sql.SortByKey | vermessung_log/database.py:89 | `ORDER BY` keeps every row with its multiplicity |
| Sql.OrderBy | vermessung_log/database.py:89 | the sorted rows are ordered by the key and are a permutation of the input |
| Sql.Limit | db.py:117 | `LIMIT n` keeps the first n rows, or all of them when there are fewer; a negative n keeps every row |
| Sql.First | vermessung_log/database.py:96 | `LIMIT 1` after `ORDER BY`: `None` exactly for no rows, else a row no other row sorts before |
| Sql.Where | vermessung_log/database.py:89 | `WHERE` keeps exactly the rows that meet the condition, each exactly as often as before, none of the others |
| Sql.FindFirst | vermessung_log/database.py:84 | `None` exactly when no row meets the condition, else a row that does |
| Sql.Select | vermessung_log/database.py:106 | the projected column has one value per row, and exactly the rows' values |
| Sql.Distinct | vermessung_log/database.py:104 | `DISTINCT` keeps each value once, and exactly the values present |
| Sql.NoDupPermutation | db.py:123 | reordering a list without duplicates leaves it without duplicates |
| Sql.Reconcile | database.py:99-125 | grouping by a coarser key gives each coarse group the sum of the finer groups that map to it |
| Sql.GrandTotal | vermessung_log/exporter.py:20-29 | the groups' sums add up to the sum over all rows |
| Sql.GroupKeys | src/storage.py:213-214 | `GROUP BY` gives each key present exactly once, in key order |
| Sql.SqlSum | database.py:103 | SQL `SUM` is NULL exactly when the group holds no non-NULL value |
| Sql.SqlSumGetOr | database.py:103 | SQL `SUM` with NULL read as 0 equals the sum of the group's values, NULL counting as 0 |
| Sql.GroupByMeaning | database.py:103-107 | each key of the rows in exactly one result row and no other key, in ORDER BY order, each with its group's SQL sum; the totals add up to the sum over all rows |
| Sql.ReconcileGroupBy | database.py:99-125 | a coarse group's SQL sum, NULL read as 0, equals the total of the fine group rows that map to it |
| Text.Strip | src/utils.py:23 | `str.strip()`: the text with a whitespace prefix and a whitespace suffix cut off; empty exactly for all-whitespace text, otherwise starting and ending with a non-whitespace character |
| Text.TrimStart | src/utils.py:23 | drops a whitespace prefix and leaves a suffix of the text starting with non-whitespace |
| Text.TrimEnd | src/utils.py:23 | drops a whitespace suffix and leaves a prefix of the text ending with non-whitespace |
| Text.StripUnchanged | src/utils.py:23 | text with no whitespace at either end is its own strip |
| Text.PadInt | database.py:109 | `f"{n:0{width}d}"`: at least width characters; digits only for a non-negative n, a minus sign then digits otherwise |
| Text.PadIntValue | database.py:109 | the padded numeral reads back as n |
| Text.FixedDigitsInjective | database.py:109 | two numbers below 10^width with the same fixed-width numeral are equal |
| Text.LexLessAsymmetric | database.py:107 | SQLite's text order is asymmetric |
| Storage.CanonicalDate | src/storage.py:75-90 | a date text the store wrote is the ISO form of the date it reads back as |
| Storage.DayEntriesReadable | src/storage.py:152-158 | the rows of a date, sorted by creation time, all read back as entries |
| Storage.DayEntriesDates | src/storage.py:152-158 | every entry returned for a date is on that date |
| Storage.DayEntriesOrdered | src/storage.py:155 | the entries of a date come in non-decreasing creation time |
| Storage.DayEntriesComplete | src/storage.py:152-158 | every stored row of the date is returned as its entry |
| Storage.DayEntriesSound | src/storage.py:152-158 | every entry returned is the reading of a stored row of that date |
| Storage.SiteKeysOrdered | src/storage.py:242 | totals ordered by `site_name ASC` have non-decreasing site names |

## Left out

- Qt user interface: widgets and layouts, signal wiring, message boxes, file dialogs, table models, completers, and the filling of the form from a selected row. The form's values are parameters, and only the decisions of the handlers are modelled.
- SQLite plumbing: connections, commits, `close` and `CREATE TABLE IF NOT EXISTS`. A table is a sequence of rows and a counter.
- SQLite type affinity: a column holds values of its declared type only.
- Ties in `ORDER BY`: the sort is stable. Contracts state only what the SQL keys determine, since SQLite leaves the order of equal keys open.
- Clocks and identity: `datetime.now`, `date.today`, `QTime.currentTime` and `getpass.getuser` are parameters (`now`, `clock`, `savedAt`, `login`, `defaultEmployee`).
- Floating point: numbers are exact reals, so binary representation error and its effect on rounding ties are not modelled.
- `float(text)` reads decimal literals only; `inf`, `nan` and digit separators `_` are outside it.
- LogDb.RoundToStep: the `+ 1e-9` added before rounding to cents (database.py:152) is left out. In the source it moves every value from 1e-9 below a half cent up to the half cent itself to the upper cent, and a value exactly on a half cent with an even lower cent as well. The contract therefore promises only that the result is within half a cent of the nearest multiple of the step, which the source's result misses by at most the 1e-9 of the nudge; for steps of whole cents `RoundToStepCents` gives the exact multiple, which the nudge does not change either.
- Unicode: strings are sequences of characters, with no normalisation. `str.strip()` uses Python's whitespace set.
- Python's date arithmetic beyond the year 9999: there `date(10000, 1, 1)` raises a ValueError (year out of range). `MonthBounds` and the month queries built on it return `None` for December 9999. The `vermessung_log` text range for that month is proved to select nothing.
- Filesystem and environment:
  - `mkdir`, `get_db_path`, `get_storage_path`, `default_db_path` and the import-time `expandvars` are not modelled;
  - paths are values;
  - `_resolve_data_dir` is a function of an environment map and a home directory.
- The CSV writer itself: quoting, encoding and the file write. A report is the sequence of rows handed to `writer.writerow`.
- The spreadsheet exports (vermessung_log/exporter.py:62-105, src/storage.py:270-289, app.py:501-539): these are wrappers over pandas and openpyxl, which are not part of this model.
- Logging, and the module-level `PATHS` and `DB` singletons of db.py.
- app.py's store: app.py:10 reads `from database import Database, get_db_path`, and database.py defines neither name (it defines `LogDatabase` and `get_storage_path`), so importing app.py fails with an ImportError and none of its handlers can run as written. The model takes the handlers' decisions as written, against the methods they call (`fetch_unique_values`, `fetch_month_summaries`, `update_entry`, …), which no file of the repository defines.
  - `SaveEntry` returns the call it would make as a `StoreCall` value.
  - `LoadSelected` takes whether the row exists as a parameter.
  - The month report takes the summaries and totals as input.
- The `day_fraction is None` check of vermessung_log/app.py:294-296: no path reaches it with `None`, so it is not modelled.
- Widget ranges and validators, such as the spin boxes' minimums and the fraction validator at vermessung_log/app.py:140: the model accepts every value. A zero step or a zero workday therefore shows up as the `ZeroDivisionError` path, ZeroDivision in `VermessungApp` and `ZeroStep` in `Utils`.
- src/main.py's `delete_selected`, `duplicate_selected` and `fill_last_site`, and vermessung_log/app.py's `delete_selected_entry` and `use_last_site`: each is one call to a modelled store operation (`Storage.LogEntriesTable.Delete`, `Duplicate`, `FetchLastEntry`; `Manager.DatabaseManager.DeleteEntry`, `LatestEntry`) followed by a reload of the view, so they are not modelled separately.
- Display formatting of the table views (app.py:70, src/main.py:50, vermessung_log/app.py:347) and of the statistics label (main.py:175-176).
- `Config.Employees` is defined but nothing is proved about it: the code only lists it in a widget.
